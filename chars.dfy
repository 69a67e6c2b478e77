/**
 * Character classes used by both normalisers. Only ASCII is modelled:
 * Python's Unicode-aware `\s`, `str.split()` and `str.lower()` are
 * restricted to their behaviour on ASCII code points.
 */
module Chars {
  predicate IsUpper(c: char) { 'A' <= c <= 'Z' }

  predicate IsLower(c: char) { 'a' <= c <= 'z' }

  predicate IsLetter(c: char) { IsUpper(c) || IsLower(c) }

  predicate IsDigit(c: char) { '0' <= c <= '9' }

  /**
   * The ASCII characters Python treats as whitespace: tab, line feed,
   * vertical tab, form feed, carriage return (0x09-0x0D), the four
   * information separators (0x1C-0x1F) and space (0x20).
   */
  predicate IsSpace(c: char) { '\t' <= c <= '\r' || '\U{1C}' <= c <= ' ' }

  predicate IsNotSpace(c: char) { !IsSpace(c) }

  /** `str.lower()` on one ASCII character. */
  function ToLower(c: char): (d: char)
    ensures !IsUpper(d)
    ensures IsLetter(d) == IsLetter(c) && IsSpace(d) == IsSpace(c)
  {
    if IsUpper(c) then (c as int + 32) as char else c
  }
}
