/** The attribute lines of `git worktree list --porcelain -z`: what one line may say,
    how it is printed, and that the parser takes back every printed line and takes
    nothing from text without NUL that is not a valid line. */
module GitWorktreeFields {
  import opened Basics
  import opened Segments
  import opened GitPaths

  // ---------- Fields ----------

  const WORKTREE: seq<byte> := [119, 111, 114, 107, 116, 114, 101, 101, 32]
  const HEAD: seq<byte> := [72, 69, 65, 68, 32]
  const BRANCH: seq<byte> := [98, 114, 97, 110, 99, 104, 32]
  const DETACHED: seq<byte> := [100, 101, 116, 97, 99, 104, 101, 100]
  const BARE: seq<byte> := [98, 97, 114, 101]
  const LOCKED: seq<byte> := [108, 111, 99, 107, 101, 100]
  const PRUNABLE: seq<byte> := [112, 114, 117, 110, 97, 98, 108, 101]

  /** One attribute of a worktree. A lock or prune note without a reason has the empty reason. */
  datatype Field =
    | WorktreeAt(path: Path)
    | HeadIs(commit: seq<byte>)
    | OnBranch(name: seq<byte>)
    | Detached
    | Bare
    | Locked(reason: seq<byte>)
    | Prunable(reason: seq<byte>)

  /** Well-formed UTF-8 (RFC 3629, section 4). */
  predicate Utf8(s: seq<byte>) {
    || s == []
    || (s[0] < 0x80 && Utf8(s[1..]))
    || (|s| >= 2 && 0xC2 <= s[0] <= 0xDF && Tail(s[1]) && Utf8(s[2..]))
    || (|s| >= 3 && Second3(s[0], s[1]) && Tail(s[2]) && Utf8(s[3..]))
    || (|s| >= 4 && Second4(s[0], s[1]) && Tail(s[2]) && Tail(s[3]) && Utf8(s[4..]))
  }

  predicate Tail(b: byte) {
    0x80 <= b <= 0xBF
  }

  predicate Second3(a: byte, b: byte) {
    || (a == 0xE0 && 0xA0 <= b <= 0xBF)
    || (0xE1 <= a <= 0xEC && Tail(b))
    || (a == 0xED && 0x80 <= b <= 0x9F)
    || (0xEE <= a <= 0xEF && Tail(b))
  }

  predicate Second4(a: byte, b: byte) {
    || (a == 0xF0 && 0x90 <= b <= 0xBF)
    || (0xF1 <= a <= 0xF3 && Tail(b))
    || (a == 0xF4 && 0x80 <= b <= 0x8F)
  }

  predicate Ascii(s: seq<byte>) {
    forall i :: 0 <= i < |s| ==> s[i] < 0x80
  }

  lemma {:induction false} AsciiPrefix(a: seq<byte>, s: seq<byte>)
    ensures Ascii(a) ==> (Utf8(a + s) <==> Utf8(s))
  {
    if a == [] {
      assert a + s == s;
    } else {
      assert (a + s)[1..] == a[1..] + s;
      AsciiPrefix(a[1..], s);
    }
  }

  /** An absolute Unix path in normal form: the root, or nonempty segments none of which is `.` or `..`. */
  predicate NormalPath(path: Path) {
    || path == [SLASH]
    || (path != [] && path[0] == SLASH
        && forall i :: 0 <= i < |Split(path[1..], SLASH)| ==> PartOk(Split(path[1..], SLASH)[i]))
  }

  predicate AnyHexDigit(b: byte) {
    48 <= b <= 57 || 65 <= b <= 70 || 97 <= b <= 102
  }

  predicate CommitOk(commit: seq<byte>) {
    |commit| == 40 && forall i :: 0 <= i < 40 ==> AnyHexDigit(commit[i])
  }

  function Noted(word: seq<byte>, reason: seq<byte>): seq<byte> {
    if reason == [] then word else word + [SPACE] + reason
  }

  function FieldText(f: Field): seq<byte> {
    match f
    case WorktreeAt(path) => WORKTREE + path
    case HeadIs(commit) => HEAD + commit
    case OnBranch(name) => BRANCH + name
    case Detached => DETACHED
    case Bare => BARE
    case Locked(reason) => Noted(LOCKED, reason)
    case Prunable(reason) => Noted(PRUNABLE, reason)
  }

  predicate ValidField(f: Field) {
    match f
    case WorktreeAt(path) => NormalPath(path) && Utf8(path) && NUL !in path
    case HeadIs(commit) => CommitOk(commit)
    case OnBranch(name) => name != [] && Utf8(name) && NUL !in name
    case Detached => true
    case Bare => true
    case Locked(reason) => Utf8(reason) && NUL !in reason
    case Prunable(reason) => Utf8(reason) && NUL !in reason
  }

  function After(prefix: seq<byte>, text: seq<byte>): Option<seq<byte>> {
    if prefix <= text then Some(text[|prefix|..]) else None
  }

  /** The reason after a word, if the text is the word alone or the word, a space and a reason. */
  function Note(word: seq<byte>, text: seq<byte>): Option<seq<byte>> {
    if text == word then Some([]) else After(word + [SPACE], text)
  }

  function ParseField(text: seq<byte>): Option<Field> {
    if !Utf8(text) then None
    else if WORKTREE <= text then
      var path := text[|WORKTREE|..];
      if NormalPath(path) then Some(WorktreeAt(path)) else None
    else if HEAD <= text then
      var commit := text[|HEAD|..];
      if CommitOk(commit) then Some(HeadIs(commit)) else None
    else if BRANCH <= text then
      var name := text[|BRANCH|..];
      if name != [] then Some(OnBranch(name)) else None
    else ParseMark(text)
  }

  function ParseMark(text: seq<byte>): Option<Field> {
    if text == DETACHED then Some(Detached)
    else if text == BARE then Some(Bare)
    else if Note(LOCKED, text).Some? then Some(Locked(Note(LOCKED, text).value))
    else if Note(PRUNABLE, text).Some? then Some(Prunable(Note(PRUNABLE, text).value))
    else None
  }

  lemma {:induction false} NotedExact(word: seq<byte>, reason: seq<byte>)
    requires Ascii(word)
    ensures Note(word, Noted(word, reason)) == Some(reason)
    ensures Utf8(Noted(word, reason)) <==> Utf8(reason)
  {
    AsciiPrefix(word + [SPACE], reason);
    AsciiPrefix(word, []);
    assert word + [] == word;
  }

  /** A valid field's text parses back to it, is not empty and has no NUL. */
  lemma {:induction false} FieldRoundTrip(f: Field)
    requires ValidField(f)
    ensures ParseField(FieldText(f)) == Some(f)
    ensures FieldText(f) != [] && NUL !in FieldText(f)
  {
    if f.WorktreeAt? || f.HeadIs? || f.OnBranch? {
      ValueRoundTrip(f);
    } else {
      MarkRoundTrip(f);
    }
  }

  lemma {:induction false} ValueRoundTrip(f: Field)
    requires ValidField(f) && (f.WorktreeAt? || f.HeadIs? || f.OnBranch?)
    ensures ParseField(FieldText(f)) == Some(f) && FieldText(f) != [] && NUL !in FieldText(f)
  {
    var text := FieldText(f);
    if f.WorktreeAt? {
      AsciiPrefix(WORKTREE, f.path);
      assert text[|WORKTREE|..] == f.path;
    } else if f.HeadIs? {
      CommitIsText(f.commit);
      AsciiPrefix(HEAD, f.commit);
      assert text[0] == 72 && text[|HEAD|..] == f.commit;
    } else {
      AsciiPrefix(BRANCH, f.name);
      assert text[0] == 98 && text[|BRANCH|..] == f.name;
    }
  }

  lemma {:induction false} MarkRoundTrip(f: Field)
    requires ValidField(f) && (f.Detached? || f.Bare? || f.Locked? || f.Prunable?)
    ensures ParseField(FieldText(f)) == Some(f) && FieldText(f) != [] && NUL !in FieldText(f)
  {
    if f.Detached? {
      PlainText(DETACHED);
      NoValue(DETACHED);
    } else if f.Bare? {
      PlainText(BARE);
      NoValue(BARE);
    } else if f.Locked? {
      NotedExact(LOCKED, f.reason);
      NoValue(Noted(LOCKED, f.reason));
    } else {
      PrunableRoundTrip(f.reason);
    }
  }

  lemma {:induction false} PrunableRoundTrip(reason: seq<byte>)
    requires Utf8(reason) && NUL !in reason
    ensures var text := FieldText(Prunable(reason));
            ParseField(text) == Some(Prunable(reason)) && text != [] && NUL !in text
  {
    var text := FieldText(Prunable(reason));
    NotedExact(PRUNABLE, reason);
    NoValue(text);
    assert text[0] != LOCKED[0];
    assert ParseMark(text) == Some(Prunable(reason));
  }

  /** Text that starts like a mark is not taken for a path, a commit or a branch. */
  lemma {:induction false} NoValue(text: seq<byte>)
    requires |text| >= 2 && (text[0] == 100 || text[0] == 108 || text[0] == 112 || (text[0] == 98 && text[1] == 97))
    ensures !(WORKTREE <= text) && !(HEAD <= text) && !(BRANCH <= text)
  {
    assert WORKTREE[0] == 119 && HEAD[0] == 72 && BRANCH[0] == 98 && BRANCH[1] == 114;
  }

  lemma {:induction false} PlainText(word: seq<byte>)
    ensures Ascii(word) ==> Utf8(word)
  {
    AsciiPrefix(word, []);
    assert word + [] == word;
  }

  lemma {:induction false} CommitIsText(commit: seq<byte>)
    requires CommitOk(commit)
    ensures Utf8(commit) && NUL !in commit
  {
    PlainText(commit);
  }

  /** Only valid fields are accepted from text without NUL. */
  lemma {:induction false} AcceptedField(text: seq<byte>)
    requires ParseField(text).Some? && NUL !in text
    ensures ValidField(ParseField(text).value)
  {
    if WORKTREE <= text {
      AsciiPrefix(WORKTREE, text[|WORKTREE|..]);
      assert text == WORKTREE + text[|WORKTREE|..];
    } else if HEAD <= text {
    } else if BRANCH <= text {
      AsciiPrefix(BRANCH, text[|BRANCH|..]);
      assert text == BRANCH + text[|BRANCH|..];
    } else {
      AcceptedMark(text);
    }
  }

  lemma {:induction false} AcceptedMark(text: seq<byte>)
    requires ParseMark(text).Some? && Utf8(text) && NUL !in text
    ensures ValidField(ParseMark(text).value)
  {
    if Note(LOCKED, text).Some? {
      AcceptedNote(LOCKED, text);
    }
    if Note(PRUNABLE, text).Some? {
      AcceptedNote(PRUNABLE, text);
    }
  }

  lemma {:induction false} AcceptedNote(word: seq<byte>, text: seq<byte>)
    requires Ascii(word) && Note(word, text).Some? && Utf8(text) && NUL !in text
    ensures Utf8(Note(word, text).value) && NUL !in Note(word, text).value
  {
    if text != word {
      var reason := Note(word, text).value;
      assert text == word + [SPACE] + reason;
      AsciiPrefix(word + [SPACE], reason);
    }
  }

  /** `locked` and `locked ` say the same. */
  lemma {:induction false} EmptyReason()
    ensures ParseField(LOCKED) == Some(Locked([])) == ParseField(LOCKED + [SPACE])
    ensures LOCKED != LOCKED + [SPACE]
  {
    AsciiPrefix(LOCKED, []);
    AsciiPrefix(LOCKED + [SPACE], []);
    assert LOCKED + [] == LOCKED && LOCKED + [SPACE] + [] == LOCKED + [SPACE];
  }
}
