/** The characters of the classes that the code tests for, listed. */
module Ascii {

  const SMALL := "abcdefghijklmnopqrstuvwxyz"
  const CAPITAL := "ABCDEFGHIJKLMNOPQRSTUVWXYZ"
  const DIGITS := "0123456789"
  const HEXDIGITS := "0123456789abcdefABCDEF"

  /** Space, tab, newline, vertical tab, form feed, carriage return. */
  const BLANKS := " \t\n\U{0B}\U{0C}\r"

  predicate InLetters(c: char) {
    c in SMALL || c in CAPITAL || c == '_'
  }

  predicate InWord(c: char) {
    InLetters(c) || c in DIGITS
  }

  lemma Smalls(c: char)
    ensures c in SMALL <==> 'a' <= c <= 'z'
  {
    if 'a' <= c <= 'z' { assert SMALL[c as int - 97] == c; }
  }

  lemma Capitals(c: char)
    ensures c in CAPITAL <==> 'A' <= c <= 'Z'
  {
    if 'A' <= c <= 'Z' { assert CAPITAL[c as int - 65] == c; }
  }

  lemma Digits(c: char)
    ensures c in DIGITS <==> '0' <= c <= '9'
  {
    if '0' <= c <= '9' { assert DIGITS[c as int - 48] == c; }
  }

  lemma HexDigits(c: char)
    ensures c in HEXDIGITS <==> '0' <= c <= '9' || 'a' <= c <= 'f' || 'A' <= c <= 'F'
  {
    if '0' <= c <= '9' { assert HEXDIGITS[c as int - 48] == c; }
    if 'a' <= c <= 'f' { assert HEXDIGITS[c as int - 97 + 10] == c; }
    if 'A' <= c <= 'F' { assert HEXDIGITS[c as int - 65 + 16] == c; }
  }

  lemma Blanks(c: char)
    ensures c in BLANKS <==> c == ' ' || 9 <= c as int <= 13
  {
    if 9 <= c as int <= 13 { assert BLANKS[c as int - 8] == c; }
  }
}
