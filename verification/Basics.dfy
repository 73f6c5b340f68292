/** Types shared by every part of the model. */
module Basics {
  datatype Option<+T> = None | Some(value: T)

  datatype Result<+T, +E> = Ok(value: T) | Err(error: E)

  type byte = b: int | 0 <= b < 256

  const NUL: byte := 0
  const TAB: byte := 9
  const NEWLINE: byte := 10
  const CARRIAGE_RETURN: byte := 13
  const SPACE: byte := 32

  /** The last element of a log that is known not to be empty. */
  function Last<T>(s: seq<T>): T
    requires s != []
  {
    s[|s| - 1]
  }

  /** The longest log is never rewritten: `earlier` is a prefix of `later`. */
  ghost predicate Extends<T>(earlier: seq<T>, later: seq<T>) {
    |earlier| <= |later| && later[..|earlier|] == earlier
  }
}
