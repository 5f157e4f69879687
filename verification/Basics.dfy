/** Value shapes shared by the modules of this project. */
module Basics {

  /** An absent or present value: Rust's `Option`, or a nullable SQL column. */
  datatype Option<+T> = None | Some(value: T)

  /** The outcome of a fallible operation. */
  datatype Result<+T, +E> = Ok(value: T) | Err(error: E)

  type Byte = b: int | 0 <= b < 256

  const U32_MAX: nat := 0xFFFF_FFFF
  const U64_MAX: nat := 0xFFFF_FFFF_FFFF_FFFF

  function Min(a: int, b: int): int {
    if a < b then a else b
  }

  /** Unicode White_Space, the characters `trim` removes. */
  predicate IsWhitespace(c: char) {
    var n := c as int;
    || 0x9 <= n <= 0xD || n == 0x20 || n == 0x85 || n == 0xA0 || n == 0x1680 || 0x2000 <= n <= 0x200A
    || n == 0x2028 || n == 0x2029 || n == 0x202F || n == 0x205F || n == 0x3000
  }

  /** Empty once trimmed. */
  predicate Blank(s: string) {
    forall i | 0 <= i < |s| :: IsWhitespace(s[i])
  }
}
