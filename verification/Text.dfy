/** The facts about text that the repository's checks use: UTF-8 sizes and white space. */
module Text {
  /** Bytes of one character in UTF-8 (RFC 3629, section 3). */
  function Utf8Size(c: char): (n: nat)
    ensures 1 <= n <= 4
  {
    var code := c as int;
    if code < 0x80 then 1 else if code < 0x800 then 2 else if code < 0x1_0000 then 3 else 4
  }

  function Utf8Length(s: string): nat {
    if s == [] then 0 else Utf8Length(s[..|s| - 1]) + Utf8Size(s[|s| - 1])
  }

  /** Unicode's White_Space property. */
  predicate IsWhitespace(c: char) {
    var code := c as int;
    || 9 <= code <= 13
    || code in {0x20, 0x85, 0xA0, 0x1680, 0x2028, 0x2029, 0x202F, 0x205F, 0x3000}
    || 0x2000 <= code <= 0x200A
  }

  predicate IsBlank(s: string) {
    forall i :: 0 <= i < |s| ==> IsWhitespace(s[i])
  }

  /** The store's check on required text: not blank, and at most `max` bytes. */
  predicate NonEmpty(value: string, max: nat) {
    !IsBlank(value) && Utf8Length(value) <= max
  }
}
