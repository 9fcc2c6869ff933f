/** Vocabulary shared by every model: bytes, options, and the ASCII classes
    of the Rust standard library that the kernel uses. */
module Prelude {

  type byte = b: int | 0 <= b < 256

  type Bytes = seq<byte>

  datatype Option<+T> = None | Some(value: T)

  datatype Result<+T, +E> = Ok(value: T) | Err(error: E)

  function Max(a: int, b: int): int {
    if a < b then b else a
  }

  function Min(a: int, b: int): int {
    if a < b then a else b
  }

  /** `x.saturating_sub(y)`. */
  function SaturatingSub(x: nat, y: nat): nat {
    if x < y then 0 else x - y
  }

  /** `x.clamp(low, high)`. */
  function Clamp(x: int, low: int, high: int): int
    requires low <= high
  {
    if x < low then low else if high < x then high else x
  }

  predicate IsAscii(b: byte) {
    b < 128
  }

  predicate AllAscii(s: Bytes) {
    forall i :: 0 <= i < |s| ==> IsAscii(s[i])
  }

  /** `u8::is_ascii_graphic`. */
  predicate IsGraphic(b: byte) {
    33 <= b <= 126
  }

  predicate IsPrintable(b: byte) {
    32 <= b <= 126
  }

  /** `u8::is_ascii_whitespace`: space, tab, line feed, form feed, return. */
  predicate IsWhitespace(b: byte) {
    b == 32 || b == 9 || b == 10 || b == 12 || b == 13
  }

  predicate IsDigit(b: byte) {
    48 <= b <= 57
  }

  predicate IsAlphanumeric(b: byte) {
    IsDigit(b) || 65 <= b <= 90 || 97 <= b <= 122
  }

  function ToLower(b: byte): byte {
    if 65 <= b <= 90 then b + 32 else b
  }
}
