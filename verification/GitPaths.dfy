/** The lexical layer of the Git parsers: modes, object ids and repository-relative
    paths, with the Unix rules for the paths that may be looked up on disk. Unicode
    normal forms are a parameter, as the program takes them from a library. */
module GitPaths {
  import opened Basics
  import opened Segments

  const MAX_STATUS_RECORDS: nat := 1000
  const MAX_REPOSITORY_RELATIVE_PATH_BYTES: nat := 4 * 1024

  const SLASH: byte := 47
  const BACKSLASH: byte := 92
  const COLON: byte := 58
  const DOT: byte := 46
  const ZERO: byte := 48

  type Path = seq<byte>
  type Oid = seq<byte>

  datatype Mode = Absent | Regular | Executable | SymbolicLink | Gitlink

  /** Six octal digits. */
  function ModeText(mode: Mode): (text: seq<byte>)
    ensures |text| == 6 && forall i :: 0 <= i < 6 ==> ZERO <= text[i] < ZERO + 8
  {
    match mode
    case Absent => [48, 48, 48, 48, 48, 48]
    case Regular => [49, 48, 48, 54, 52, 52]
    case Executable => [49, 48, 48, 55, 53, 53]
    case SymbolicLink => [49, 50, 48, 48, 48, 48]
    case Gitlink => [49, 54, 48, 48, 48, 48]
  }

  function ParseMode(text: seq<byte>): (mode: Option<Mode>)
    ensures mode.Some? ==> text == ModeText(mode.value)
  {
    if text == ModeText(Absent) then Some(Absent)
    else if text == ModeText(Regular) then Some(Regular)
    else if text == ModeText(Executable) then Some(Executable)
    else if text == ModeText(SymbolicLink) then Some(SymbolicLink)
    else if text == ModeText(Gitlink) then Some(Gitlink)
    else None
  }

  /** The mode texts are distinct, so printing a mode and parsing it is the identity. */
  lemma {:induction false} ModeRoundTrip(mode: Mode)
    ensures ParseMode(ModeText(mode)) == Some(mode)
  {
    var parsed := ParseMode(ModeText(mode)).value;
    assert ModeText(parsed)[1] == ModeText(mode)[1] && ModeText(parsed)[3] == ModeText(mode)[3];
    assert ModeText(parsed)[0] == ModeText(mode)[0];
  }

  predicate HexDigit(b: byte) {
    48 <= b <= 57 || 97 <= b <= 102
  }

  predicate ValidOid(oid: Oid) {
    |oid| == 40 && forall i :: 0 <= i < 40 ==> HexDigit(oid[i])
  }

  /** The lexical check before a path reaches the file system (Unix rules). */
  predicate LookupPathOk(path: Path) {
    && path != [] && |path| <= MAX_REPOSITORY_RELATIVE_PATH_BYTES
    && NUL !in path
    && path[0] != SLASH && path[0] != BACKSLASH
    && !(|path| >= 2 && AsciiLetter(path[0]) && path[1] == COLON)
    && forall i :: 0 <= i < |Split(path, SLASH)| ==> PartOk(Split(path, SLASH)[i])
  }

  predicate AsciiLetter(b: byte) {
    65 <= b <= 90 || 97 <= b <= 122
  }

  predicate PartOk(part: seq<byte>) {
    part != [] && part != [DOT] && part != [DOT, DOT]
  }

  /** Whether bytes are UTF-8 text whose composed and decomposed normal forms coincide. */
  type Stable = seq<byte> -> bool

  /** What `parse_repository_relative_path` accepts. */
  predicate PathOk(stable: Stable, path: Path) {
    path != [] && |path| <= MAX_REPOSITORY_RELATIVE_PATH_BYTES && stable(path) && LookupPathOk(path)
  }

  /** The first cut at a separator, as `splitn(2, ..)` makes it. */
  function Cut(s: seq<byte>, sep: byte): (r: Option<(seq<byte>, seq<byte>)>)
    ensures r.Some? ==> sep !in r.value.0 && s == r.value.0 + [sep] + r.value.1
    ensures r.None? ==> sep !in s
  {
    if s == [] then None
    else if s[0] == sep then Some(([], s[1..]))
    else
      match Cut(s[1..], sep)
      case None => None
      case Some((a, b)) =>
        assert s == [s[0]] + a + [sep] + b;
        Some(([s[0]] + a, b))
  }

  lemma {:induction false} CutUnique(a: seq<byte>, sep: byte, b: seq<byte>)
    ensures sep !in a ==> Cut(a + [sep] + b, sep) == Some((a, b))
  {
    var s := a + [sep] + b;
    if a == [] {
      assert s[1..] == b;
    } else {
      CutUnique(a[1..], sep, b);
      assert s[0] in a && s[1..] == a[1..] + [sep] + b;
      assert [s[0]] + a[1..] == a;
    }
  }
}
