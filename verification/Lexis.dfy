/**
 The characters of RFC 8259, RFC 3629 and JSON5, written out from those standards. The grammars are stated with these
 alone, so none of the tables the scanners share decides what the grammars say.
 */
module Lexis {
  import opened Core

  predicate Blank(c: byte) { c == ' ' as int || c == '\t' as int || c == '\n' as int || c == '\r' as int }

  predicate Digit(c: byte) { '0' as int <= c <= '9' as int }

  predicate Digits(s: bytes, i: nat, j: nat)
    requires j <= |s|
  {
    forall k :: i <= k < j ==> Digit(s[k])
  }

  predicate IsDecimal(t: bytes) { forall i :: 0 <= i < |t| ==> Digit(t[i]) }

  /** The number a run of digits denotes. */
  function DecimalValue(t: bytes): nat
    requires IsDecimal(t)
  {
    if |t| == 0 then 0 else 10 * DecimalValue(t[..|t| - 1]) + (t[|t| - 1] - '0' as int)
  }

  predicate ExpMark(c: byte) { c == 'e' as int || c == 'E' as int }
  predicate Sign(c: byte) { c == '+' as int || c == '-' as int }

  /** A hex digit of either case, and its value. */
  predicate HexDigit(c: byte, v: int) {
    || (Digit(c) && v == c - '0' as int)
    || ('a' as int <= c <= 'f' as int && v == 10 + c - 'a' as int)
    || ('A' as int <= c <= 'F' as int && v == 10 + c - 'A' as int)
  }

  predicate IsHexDigit(c: byte) { Digit(c) || 'a' as int <= c <= 'f' as int || 'A' as int <= c <= 'F' as int }

  function HexDigitOf(c: byte): (v: int)
    requires IsHexDigit(c)
    ensures HexDigit(c, v)
  {
    if Digit(c) then c - '0' as int else if c < 'G' as int then c - 'A' as int + 10 else c - 'a' as int + 10
  }

  /** The ASCII word w stands at s[p..q]. */
  predicate Word(s: bytes, p: nat, q: nat, w: string) {
    q == p + |w| <= |s| && forall i :: 0 <= i < |w| ==> s[p + i] == w[i] as int
  }

  /** A two-byte escape of section 7 of RFC 8259: the letter behind the backslash, and the byte it stands for. */
  predicate Simple(c: byte, b: byte) {
    || (c == '"' as int && b == 0x22)
    || (c == '\\' as int && b == 0x5C)
    || (c == '/' as int && b == 0x2F)
    || (c == 'b' as int && b == 0x08)
    || (c == 'f' as int && b == 0x0C)
    || (c == 'n' as int && b == 0x0A)
    || (c == 'r' as int && b == 0x0D)
    || (c == 't' as int && b == 0x09)
  }

  predicate IsSimple(c: byte) {
    || c == '"' as int || c == '\\' as int || c == '/' as int || c == 'b' as int || c == 'f' as int
    || c == 'n' as int || c == 'r' as int || c == 't' as int
  }

  /** `\uXXXX` at i, of value v. */
  predicate HexEscape(s: bytes, i: nat, v: int) {
    && i + 6 <= |s| && s[i] == '\\' as int && s[i + 1] == 'u' as int && 0 <= v < 0x10000
    && HexDigit(s[i + 2], v / 4096) && HexDigit(s[i + 3], v / 256 % 16)
    && HexDigit(s[i + 4], v / 16 % 16) && HexDigit(s[i + 5], v % 16)
  }

  predicate HighSurrogate(v: int) { 0xD800 <= v < 0xDC00 }
  predicate LowSurrogate(v: int) { 0xDC00 <= v < 0xE000 }

  /** Section 3 of RFC 3629: the bytes of a scalar value. */
  function Utf8Of(cp: nat): (t: bytes)
    requires cp < 0x110000
    ensures 1 <= |t| <= 4
  {
    if cp < 0x80 then [cp]
    else if cp < 0x800 then [0xC0 + cp / 64, 0x80 + cp % 64]
    else if cp < 0x10000 then [0xE0 + cp / 4096, 0x80 + cp / 64 % 64, 0x80 + cp % 64]
    else [0xF0 + cp / 262144, 0x80 + cp / 4096 % 64, 0x80 + cp / 64 % 64, 0x80 + cp % 64]
  }

  /** The escapes at i, one or a surrogate pair, that end at n spell the scalar value cp. */
  ghost predicate Unicode(s: bytes, i: nat, n: nat, cp: nat) {
    || (n == i + 6 && HexEscape(s, i, cp) && !HighSurrogate(cp) && !LowSurrogate(cp))
    || (n == i + 12 && exists hi, lo ::
          && HexEscape(s, i, hi) && HexEscape(s, i + 6, lo) && HighSurrogate(hi) && LowSurrogate(lo)
          && cp == 0x10000 + (hi - 0xD800) * 0x400 + (lo - 0xDC00))
  }

  // ---- JSON5 ----

  /** U+2028 or U+2029. */
  predicate LineSeparator(s: bytes, i: nat) {
    i + 3 <= |s| && s[i] == 0xE2 && s[i + 1] == 0x80 && (s[i + 2] == 0xA8 || s[i + 2] == 0xA9)
  }

  /** A line terminator at i. */
  predicate LineBreak(s: bytes, i: nat) {
    i < |s| && (s[i] == '\n' as int || s[i] == '\r' as int || LineSeparator(s, i))
  }

  /**
   White space of JSON5 at i, up to n: tab, line feed, vertical tab, form feed, carriage return, space, a code point.
   */
  predicate White(s: bytes, i: nat, n: nat) {
    || (n == i + 1 <= |s| && (s[i] == 0x20 || 0x09 <= s[i] <= 0x0D))
    || (n == i + 2 <= |s| && s[i] == 0xC2 && s[i + 1] == 0xA0)
    || (n == i + 3 <= |s| && WhiteThree(s[i], s[i + 1], s[i + 2]))
  }

  /** U+1680, U+2000 to U+200A, U+2028, U+2029, U+202F, U+205F, U+3000 and U+FEFF. */
  predicate WhiteThree(a: byte, b: byte, c: byte) {
    || (a == 0xE1 && b == 0x9A && c == 0x80)
    || (a == 0xE2 && b == 0x80 && (0x80 <= c <= 0x8A || c == 0xA8 || c == 0xA9 || c == 0xAF))
    || (a == 0xE2 && b == 0x81 && c == 0x9F)
    || (a == 0xE3 && b == 0x80 && c == 0x80)
    || (a == 0xEF && b == 0xBB && c == 0xBF)
  }
}
