/** Sizes and blanks, by encoding and by code point. */
module Utf8 {
  import opened Basics
  import opened Text

  /** The encoding of a character (RFC 3629, section 3): a byte that tells the number of bytes, and then
      six bits in each byte. */
  function Encode(c: char): seq<byte> {
    var n := c as int;
    if n < 0x80 then [n]
    else if n < 0x800 then [0xC0 + n / 64, 0x80 + n % 64]
    else if n < 0x1_0000 then [0xE0 + n / 64 / 64, 0x80 + n / 64 % 64, 0x80 + n % 64]
    else [0xF0 + n / 64 / 64 / 64, 0x80 + n / 64 / 64 % 64, 0x80 + n / 64 % 64, 0x80 + n % 64]
  }

  /** The bits of the bytes behind the first one. */
  function Tail(bytes: seq<byte>, first: int): int {
    if |bytes| <= 1 then first else Tail(bytes[..|bytes| - 1], first) * 64 + bytes[|bytes| - 1] as int - 0x80
  }

  /** The code point of an encoded character. */
  function Decode(bytes: seq<byte>): int
    requires bytes != []
  {
    var b := bytes[0] as int;
    if b < 0x80 && |bytes| == 1 then b
    else if 0xC0 <= b < 0xE0 && |bytes| == 2 then Tail(bytes, b - 0xC0)
    else if 0xE0 <= b < 0xF0 && |bytes| == 3 then Tail(bytes, b - 0xE0)
    else if 0xF0 <= b < 0xF8 && |bytes| == 4 then Tail(bytes, b - 0xF0)
    else -1
  }

  lemma {:induction false} TailSnoc(bytes: seq<byte>, first: int, bits: int)
    requires bytes != [] && 0 <= bits < 64
    ensures Tail(bytes + [0x80 + bits], first) == Tail(bytes, first) * 64 + bits
  {
    assert (bytes + [0x80 + bits])[..|bytes|] == bytes;
  }

  lemma {:induction false} DecodeTwo(a: int, x: int)
    requires 0 <= a < 32 && 0 <= x < 64
    ensures Decode([0xC0 + a, 0x80 + x]) == a * 64 + x
  {
    TailSnoc([0xC0 + a], a, x);
    assert [0xC0 + a] + [0x80 + x] == [0xC0 + a, 0x80 + x];
  }

  lemma {:induction false} DecodeThree(a: int, x: int, y: int)
    requires 0 <= a < 16 && 0 <= x < 64 && 0 <= y < 64
    ensures Decode([0xE0 + a, 0x80 + x, 0x80 + y]) == (a * 64 + x) * 64 + y
  {
    TailSnoc([0xE0 + a], a, x);
    TailSnoc([0xE0 + a] + [0x80 + x], a, y);
    assert [0xE0 + a] + [0x80 + x] + [0x80 + y] == [0xE0 + a, 0x80 + x, 0x80 + y];
  }

  lemma {:induction false} DecodeFour(a: int, x: int, y: int, z: int)
    requires 0 <= a < 8 && 0 <= x < 64 && 0 <= y < 64 && 0 <= z < 64
    ensures Decode([0xF0 + a, 0x80 + x, 0x80 + y, 0x80 + z]) == ((a * 64 + x) * 64 + y) * 64 + z
  {
    TailSnoc([0xF0 + a], a, x);
    TailSnoc([0xF0 + a] + [0x80 + x], a, y);
    TailSnoc([0xF0 + a] + [0x80 + x] + [0x80 + y], a, z);
    assert [0xF0 + a] + [0x80 + x] + [0x80 + y] + [0x80 + z] == [0xF0 + a, 0x80 + x, 0x80 + y, 0x80 + z];
  }

  lemma {:induction false} InSixes(n: nat)
    ensures n == n / 64 * 64 + n % 64 && 0 <= n % 64 < 64
  {
  }

  /** The size of a character is that of its encoding, which can be decoded. */
  lemma {:induction false} SizeIsEncoded(c: char)
    ensures |Encode(c)| == Utf8Size(c) && Decode(Encode(c)) == c as int
  {
    var n := c as int;
    InSixes(n);
    InSixes(n / 64);
    InSixes(n / 64 / 64);
    if 0x80 <= n < 0x800 {
      DecodeTwo(n / 64, n % 64);
    } else if 0x800 <= n < 0x1_0000 {
      DecodeThree(n / 64 / 64, n / 64 % 64, n % 64);
    } else if n >= 0x1_0000 {
      DecodeFour(n / 64 / 64 / 64, n / 64 / 64 % 64, n / 64 % 64, n % 64);
    }
  }

  function EncodeAll(s: string): seq<byte> {
    if s == [] then [] else EncodeAll(s[..|s| - 1]) + Encode(s[|s| - 1])
  }

  lemma {:induction false} LengthIsEncoded(s: string)
    ensures Utf8Length(s) == |EncodeAll(s)|
  {
    if s != [] {
      LengthIsEncoded(s[..|s| - 1]);
      SizeIsEncoded(s[|s| - 1]);
    }
  }

  /** The characters with the property White_Space. */
  lemma {:induction false} WhiteSpace(c: char)
    ensures IsWhitespace(c) <==>
              || c in {' ', '\t', '\n', '\r'}
              || c as int in {0x0B, 0x0C, 0x85, 0xA0, 0x1680, 0x2000, 0x2001, 0x2002, 0x2003, 0x2004, 0x2005, 0x2006,
                              0x2007, 0x2008, 0x2009, 0x200A, 0x2028, 0x2029, 0x202F, 0x205F, 0x3000}
  {
  }

  /** Required text has a character that is not white space, and an encoding that fits. */
  lemma {:induction false} NonEmptyExactly(s: string, max: nat)
    ensures NonEmpty(s, max) <==> (exists i :: 0 <= i < |s| && !IsWhitespace(s[i])) && |EncodeAll(s)| <= max
  {
    LengthIsEncoded(s);
  }
}
