/** What the lexical checks mean. */
module PathRules {
  import opened Basics
  import opened Segments
  import opened GitPaths
  import opened GitIndex
  import opened GitFlags
  import GitStaged

  // ---------- Paths, by position ----------

  /** A stretch between two slashes or ends of a path, without a slash in it. */
  ghost predicate Component(path: seq<byte>, i: nat, j: nat) {
    && i <= j <= |path| && (i == 0 || path[i - 1] == 47) && (j == |path| || path[j] == 47)
    && forall k :: i <= k < j ==> path[k] != 47
  }

  /** Each piece of a path is one of its components. */
  lemma {:induction false} PieceIsComponent(path: seq<byte>, k: nat) returns (i: nat, j: nat)
    requires k < |Split(path, SLASH)|
    ensures Component(path, i, j) && path[i..j] == Split(path, SLASH)[k] && (i == 0 <==> k == 0)
  {
    if path == [] {
      i, j := 0, 0;
    } else {
      var rest := path[1..];
      if path[0] == SLASH && k == 0 {
        i, j := 0, 0;
      } else {
        i, j := PieceIsComponent(rest, if path[0] == SLASH then k - 1 else k);
        Shifted(path, i, j);
        if path[0] != SLASH && k == 0 {
          assert path[0..j + 1] == [path[0]] + rest[i..j];
          j := j + 1;
        } else {
          i, j := i + 1, j + 1;
        }
      }
    }
  }

  lemma {:induction false} Shifted(path: seq<byte>, i: nat, j: nat)
    requires path != [] && i <= j < |path|
    ensures path[1..][i..j] == path[i + 1..j + 1]
    ensures forall k :: i <= k < j ==> path[1..][k] == path[k + 1]
  {
  }

  /** Each component of a path is one of its pieces. */
  lemma {:induction false} ComponentIsPiece(path: seq<byte>, i: nat, j: nat) returns (k: nat)
    requires Component(path, i, j)
    ensures k < |Split(path, SLASH)| && Split(path, SLASH)[k] == path[i..j] && (i == 0 <==> k == 0)
  {
    if path == [] || j == 0 {
      k := 0;
    } else {
      var rest := path[1..];
      var start := if i == 0 then 0 else i - 1;
      Shifted(path, start, j - 1);
      assert Component(rest, start, j - 1);
      k := ComponentIsPiece(rest, start, j - 1);
      if path[0] == SLASH {
        k := k + 1;
      } else if i == 0 {
        assert path[0..j] == [path[0]] + rest[0..j - 1];
      }
    }
  }

  predicate Letter(b: byte) {
    'a' as int <= b <= 'z' as int || 'A' as int <= b <= 'Z' as int
  }

  /** A path is accepted exactly if it is stable text of 1 to 4096 bytes without NUL, does not begin with a
      slash, a backslash or a drive, and no component of it is empty, `.` or `..`. */
  lemma {:induction false} PathExact(stable: Stable, path: seq<byte>)
    ensures PathOk(stable, path) <==>
              && 1 <= |path| <= 4096 && stable(path) && (forall k :: 0 <= k < |path| ==> path[k] != 0)
              && path[0] != 47 && path[0] != 92
              && !(|path| >= 2 && Letter(path[0]) && path[1] == 58)
              && forall i: nat, j: nat :: Component(path, i, j) ==> j > i && path[i..j] != [46] && path[i..j] != [46, 46]
  {
    PartsExactly(path);
  }

  /** The pieces of a path are acceptable exactly if its components are. */
  lemma {:induction false} PartsExactly(path: seq<byte>)
    ensures (forall k :: 0 <= k < |Split(path, SLASH)| ==> PartOk(Split(path, SLASH)[k])) <==>
              forall i: nat, j: nat :: Component(path, i, j) ==> j > i && path[i..j] != [46] && path[i..j] != [46, 46]
  {
    var parts := Split(path, SLASH);
    if forall k :: 0 <= k < |parts| ==> PartOk(parts[k]) {
      forall i: nat, j: nat | Component(path, i, j) ensures j > i && path[i..j] != [46] && path[i..j] != [46, 46] {
        var k := ComponentIsPiece(path, i, j);
        assert PartOk(parts[k]);
      }
    }
    if forall i: nat, j: nat :: Component(path, i, j) ==> j > i && path[i..j] != [46] && path[i..j] != [46, 46] {
      forall k | 0 <= k < |parts| ensures PartOk(parts[k]) {
        var i, j := PieceIsComponent(path, k);
      }
    }
  }

  // ---------- Walking a path ----------

  /** How deep below its start a walk along some names ends. */
  function Depth(names: seq<seq<byte>>): int {
    if names == [] then 0
    else
      var name := names[|names| - 1];
      Depth(names[..|names| - 1]) + if name == [46, 46] then -1 else if name == [] || name == [46] then 0 else 1
  }

  /** Each step along an accepted path leads one level further down, so the walk never leaves the repository. */
  lemma {:induction false} NeverAbove(stable: Stable, path: seq<byte>, n: nat)
    requires PathOk(stable, path) && n <= |Split(path, SLASH)|
    ensures Depth(Split(path, SLASH)[..n]) == n
  {
    var parts := Split(path, SLASH);
    if n > 0 {
      NeverAbove(stable, path, n - 1);
      assert parts[..n][..n - 1] == parts[..n - 1];
      var i, j := PieceIsComponent(path, n - 1);
      PathExact(stable, path);
    }
  }

  // ---------- Modes and object ids ----------

  /** The number that octal digits stand for. */
  function Octal(text: seq<byte>): int {
    if text == [] then 0 else Octal(text[..|text| - 1]) * 8 + Digit(text, |text| - 1)
  }

  /** The file type and the permission bits of stat(2); git's type 14 is a submodule. */
  function ModeNumber(mode: Mode): int {
    match mode
    case Absent => 0
    case Regular => 8 * 4096 + 420
    case Executable => 8 * 4096 + 493
    case SymbolicLink => 10 * 4096
    case Gitlink => 14 * 4096
  }

  /** A mode is written as its number in six octal digits, and no other text is a mode. */
  lemma {:induction false} ModeIsNumber(mode: Mode, text: seq<byte>)
    ensures |ModeText(mode)| == 6 && Octal(ModeText(mode)) == ModeNumber(mode)
    ensures ParseMode(text) == Some(mode) <==>
              |text| == 6 && (forall i :: 0 <= i < 6 ==> '0' as int <= text[i] <= '7' as int) && Octal(text) == ModeNumber(mode)
  {
    ModeRoundTrip(mode);
    OctalSix(ModeText(mode));
    if |text| == 6 && (forall i :: 0 <= i < 6 ==> '0' as int <= text[i] <= '7' as int) && Octal(text) == ModeNumber(mode) {
      SameDigits(text, ModeText(mode));
    }
  }

  lemma {:induction false} OctalSix(t: seq<byte>)
    requires |t| == 6
    ensures Octal(t) == ((((Digit(t, 0) * 8 + Digit(t, 1)) * 8 + Digit(t, 2)) * 8 + Digit(t, 3)) * 8 + Digit(t, 4)) * 8 + Digit(t, 5)
  {
    var none: seq<byte> := [];
    assert t[..1][..0] == none && Octal(none) == 0;
    assert t[..2][..1] == t[..1] && t[..3][..2] == t[..2] && t[..4][..3] == t[..3] && t[..5][..4] == t[..4];
    assert t[..6] == t && t[..6][..5] == t[..5];
    assert Octal(t[..1]) == Digit(t, 0);
    assert Octal(t[..2]) == Octal(t[..1]) * 8 + Digit(t, 1);
    assert Octal(t[..3]) == Octal(t[..2]) * 8 + Digit(t, 2);
    assert Octal(t[..4]) == Octal(t[..3]) * 8 + Digit(t, 3);
    assert Octal(t[..5]) == Octal(t[..4]) * 8 + Digit(t, 4);
  }

  function Digit(t: seq<byte>, i: nat): int
    requires i < |t|
  {
    t[i] as int - '0' as int
  }

  /** Octal numbers of the same length are equal only if their digits are. */
  lemma {:induction false} SameDigits(a: seq<byte>, b: seq<byte>)
    requires |a| == |b| && Octal(a) == Octal(b)
    requires forall i :: 0 <= i < |a| ==> 0 <= Digit(a, i) < 8 && 0 <= Digit(b, i) < 8
    ensures a == b
  {
    if a != [] {
      var n := |a| - 1;
      LastDigit(a, b, n);
      SameDigits(a[..n], b[..n]);
      assert a == a[..n] + [a[n]] && b == b[..n] + [b[n]];
    }
  }

  lemma {:induction false} LastDigit(a: seq<byte>, b: seq<byte>, n: nat)
    requires |a| == |b| == n + 1 && Octal(a) == Octal(b)
    requires forall i :: 0 <= i < |a| ==> 0 <= Digit(a, i) < 8 && 0 <= Digit(b, i) < 8
    ensures Octal(a[..n]) == Octal(b[..n]) && a[n] == b[n]
    ensures forall i :: 0 <= i < n ==> Digit(a[..n], i) == Digit(a, i) && Digit(b[..n], i) == Digit(b, i)
  {
  }

  function HexDigitOf(n: int): byte
    requires 0 <= n < 16
  {
    if n < 10 then '0' as int + n else 'a' as int + n - 10
  }

  /** The lower-case hexadecimal text of bytes. */
  function HexText(bytes: seq<byte>): (text: seq<byte>)
    ensures |text| == 2 * |bytes|
  {
    if bytes == [] then []
    else
      var last := bytes[|bytes| - 1];
      HexText(bytes[..|bytes| - 1]) + [HexDigitOf(last / 16), HexDigitOf(last % 16)]
  }

  predicate AllHex(text: seq<byte>) {
    forall i :: 0 <= i < |text| ==> HexDigit(text[i])
  }

  lemma {:induction false} HexTextIsHex(bytes: seq<byte>)
    ensures AllHex(HexText(bytes))
  {
    if bytes != [] {
      HexTextIsHex(bytes[..|bytes| - 1]);
    }
  }

  lemma {:induction false} HexIsText(text: seq<byte>) returns (bytes: seq<byte>)
    requires AllHex(text) && |text| % 2 == 0
    ensures HexText(bytes) == text
  {
    if text == [] {
      bytes := [];
    } else {
      var n := |text| - 2;
      var front := HexIsText(text[..n]);
      var high := if text[n] < 97 then text[n] - 48 else text[n] - 87;
      var low := if text[n + 1] < 97 then text[n + 1] - 48 else text[n + 1] - 87;
      var last: byte := high * 16 + low;
      bytes := front + [last];
      assert bytes[..|front|] == front;
      assert text == text[..n] + [text[n], text[n + 1]];
    }
  }

  /** An object id is the hexadecimal text of twenty bytes. */
  lemma {:induction false} OidIsHex(oid: Oid)
    ensures ValidOid(oid) <==> exists bytes: seq<byte> :: |bytes| == 20 && HexText(bytes) == oid
  {
    if ValidOid(oid) {
      var bytes := HexIsText(oid);
    }
    if exists bytes: seq<byte> :: |bytes| == 20 && HexText(bytes) == oid {
      var bytes: seq<byte> :| |bytes| == 20 && HexText(bytes) == oid;
      HexTextIsHex(bytes);
    }
  }

  // ---------- Records, byte by byte ----------

  /** The three record formats written out: spaces, a tab, a colon and NUL terminators. */
  lemma {:induction false} Layouts(e: Entry, f: Flag, c: GitStaged.RawChange, letter: seq<byte>)
    requires letter == GitStaged.StatusText(c.status)
    ensures EntryText(e) == ModeText(e.mode) + [32] + e.oid + [32, 48 + e.stage, 9] + e.path
    ensures PrintIndex([e]) == EntryText(e) + [0]
    ensures FlagText(f) == [f.tag, 32] + f.path
    ensures GitStaged.RawHeader(c) ==
              [58] + ModeText(c.oldMode) + [32] + ModeText(c.newMode) + [32] + c.oldOid + [32] + c.newOid + [32] + letter
    ensures GitStaged.PrintStaged([c]) == GitStaged.RawHeader(c) + [0] + c.path + [0]
  {
    var parts: seq<seq<byte>> := GitStaged.HeaderParts(c);
    JoinFive(parts, SPACE);
    var none: seq<Entry> := [];
    assert [e][..0] == none && Records(none) == [];
    assert Records([e]) == [EntryText(e)];
    Terminating(EntryText(e));
    var nothing: seq<GitStaged.RawChange> := [];
    assert [c][..0] == nothing && GitStaged.Fields(nothing) == [];
    assert GitStaged.Fields([c]) == [GitStaged.RawHeader(c), c.path];
    TerminatingTwo(GitStaged.RawHeader(c), c.path);
  }

  lemma {:induction false} Terminating(a: seq<byte>)
    ensures Terminated<byte>([a], NUL) == a + [0]
  {
    var one: seq<seq<byte>> := [a];
    var none: seq<seq<byte>> := [];
    assert one[1..] == none && Terminated<byte>(none, NUL) == [];
  }

  lemma {:induction false} TerminatingTwo(a: seq<byte>, b: seq<byte>)
    ensures Terminated<byte>([a, b], NUL) == a + [0] + b + [0]
  {
    var two: seq<seq<byte>> := [a, b];
    assert two[1..] == [b];
    Terminating(b);
  }

  lemma {:induction false} JoinFive(p: seq<seq<byte>>, sep: byte)
    requires |p| == 5
    ensures Join<byte>(p, sep) == p[0] + [sep] + p[1] + [sep] + p[2] + [sep] + p[3] + [sep] + p[4]
  {
    assert Join<byte>(p[4..], sep) == p[4];
    assert Join<byte>(p[3..], sep) == p[3] + [sep] + p[4];
    assert Join<byte>(p[2..], sep) == p[2] + [sep] + (p[3] + [sep] + p[4]);
    assert Join<byte>(p[1..], sep) == p[1] + [sep] + (p[2] + [sep] + (p[3] + [sep] + p[4]));
  }

  /** The status letters of a raw record; `U` alone stands for an unmerged path. */
  lemma {:induction false} StatusLetters(text: seq<byte>, status: Option<GitStaged.ChangeKind>)
    ensures GitStaged.ParseStatus(text) == Some(status) <==>
              |text| == 1 && text[0] == match status
                                        case None => 'U' as int
                                        case Some(Added) => 'A' as int
                                        case Some(Modified) => 'M' as int
                                        case Some(Deleted) => 'D' as int
                                        case Some(TypeChanged) => 'T' as int
  {
  }
}
