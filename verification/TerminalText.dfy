/**
 Character classes and escapes shared by the text renderers. A character is a
 Unicode scalar value.
 */
module TerminalText {

  function Code(c: char): nat { c as int }

  /** The White_Space property. */
  predicate IsWhitespace(c: char) {
    var n := Code(c);
    || 0x09 <= n <= 0x0d || n == 0x20 || n == 0x85 || n == 0xa0 || n == 0x1680
    || 0x2000 <= n <= 0x200a || n == 0x2028 || n == 0x2029 || n == 0x202f || n == 0x205f || n == 0x3000
  }

  /** General category Cc. */
  predicate IsControl(c: char) {
    Code(c) <= 0x1f || 0x7f <= Code(c) <= 0x9f
  }

  predicate IsBidiControl(c: char) {
    var n := Code(c);
    n == 0x061c || n == 0x200e || n == 0x200f || 0x202a <= n <= 0x202e || 0x2066 <= n <= 0x2069
  }

  predicate IsLineSeparator(c: char) {
    Code(c) == 0x2028 || Code(c) == 0x2029
  }

  function HexDigit(n: nat): (c: char)
    requires n < 16
    ensures ('0' <= c <= '9' || 'a' <= c <= 'f') && HexValue(c) == n
  {
    if n < 10 then '0' + n as char else 'a' + (n - 10) as char
  }

  predicate IsHex(c: char) {
    '0' <= c <= '9' || 'a' <= c <= 'f' || 'A' <= c <= 'F'
  }

  function HexValue(c: char): (n: nat)
    requires IsHex(c)
    ensures n < 16
  {
    if c <= '9' then Code(c) - Code('0') else if c <= 'F' then Code(c) - Code('A') + 10 else Code(c) - Code('a') + 10
  }
}
