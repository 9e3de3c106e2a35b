/**
 * Character classes as Python 3's `str` methods and `re` character classes
 * see them, restricted to ASCII: the only characters that reach them in the
 * scraper are the output of an ASCII fold.
 */
module Chars {

  /** Code points the 'ascii' codec keeps. */
  predicate IsAsciiChar(c: char) {
    (c as int) < 128
  }

  predicate IsAscii(s: string) {
    forall i :: 0 <= i < |s| ==> IsAsciiChar(s[i])
  }

  predicate IsUpper(c: char) {
    'A' <= c <= 'Z'
  }

  predicate IsLowerLetter(c: char) {
    'a' <= c <= 'z'
  }

  predicate IsDigit(c: char) {
    '0' <= c <= '9'
  }

  /** `str.isalnum` on an ASCII character. */
  predicate IsAlnum(c: char) {
    IsUpper(c) || IsLowerLetter(c) || IsDigit(c)
  }

  /** `\w` on an ASCII character. */
  predicate IsWordChar(c: char) {
    IsAlnum(c) || c == '_'
  }

  /**
   * `\s` on an ASCII character: the characters `str.isspace` accepts, that is
   * tab, line feed, vertical tab, form feed, carriage return, the four
   * separators 0x1C..0x1F and the space.
   */
  predicate IsSpace(c: char) {
    (9 <= c as int <= 13) || (28 <= c as int <= 31) || c == ' '
  }

  /** `str.lower` on an ASCII character. */
  function LowerChar(c: char): (r: char)
    ensures !IsUpper(r)
    ensures IsAlnum(r) <==> IsAlnum(c)
    ensures !IsUpper(c) ==> r == c
    ensures IsUpper(c) ==> r as int == c as int + 32
  {
    if IsUpper(c) then (c as int + 32) as char else c
  }
}
