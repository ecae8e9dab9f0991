/**
 Character classes used by the word-frequency pipeline.

 The scripts rely on Python's regular-expression classes `\w` (word character)
 and `\d` (digit) and on `str.lower()`, `str.split()` and `str.rstrip()`.
 This model restricts the first three to ASCII: a word character is a letter,
 a digit or `_`; every other character is a non-word character. Whitespace
 is Python's own `str.isspace()` set, which `split()` and `rstrip()` use.
 */
module Chars {

  /** `\d`: an ASCII decimal digit. */
  predicate IsDigit(c: char) {
    '0' <= c <= '9'
  }

  predicate IsUpper(c: char) {
    'A' <= c <= 'Z'
  }

  predicate IsLowerLetter(c: char) {
    'a' <= c <= 'z'
  }

  /** `\w`: a letter, a digit or the underscore. */
  predicate IsWordChar(c: char) {
    IsLowerLetter(c) || IsUpper(c) || IsDigit(c) || c == '_'
  }

  /** A character `str.split()` and `str.rstrip()` treat as whitespace. */
  predicate IsSpace(c: char) {
    var n := c as int;
    n == 0x20 || 0x09 <= n <= 0x0D || 0x1C <= n <= 0x1F || n == 0x85 || n == 0xA0
    || n == 0x1680 || 0x2000 <= n <= 0x200A || n == 0x2028 || n == 0x2029
    || n == 0x202F || n == 0x205F || n == 0x3000
  }

  /** `str.lower()` on one character: upper-case letters map to lower case, all else is kept. */
  function Lower(c: char): (d: char)
    ensures !IsUpper(d)
    ensures IsWordChar(d) <==> IsWordChar(c)
    ensures IsDigit(d) <==> IsDigit(c)
    ensures !IsUpper(c) ==> d == c
    ensures IsUpper(c) ==> IsLowerLetter(d) && d as int - 'a' as int == c as int - 'A' as int
  {
    if IsUpper(c) then (c as int - 'A' as int + 'a' as int) as char else c
  }

  /** `str.lower()` on a string, character by character. */
  function LowerString(s: string): (t: string)
    ensures |t| == |s|
    ensures forall i :: 0 <= i < |s| ==> t[i] == Lower(s[i])
  {
    seq(|s|, i requires 0 <= i < |s| => Lower(s[i]))
  }

  /** No word character is whitespace, so substituting spaces for non-word characters separates words. */
  lemma WordCharIsNotSpace(c: char)
    ensures IsWordChar(c) ==> !IsSpace(c)
    ensures IsSpace(' ') && !IsWordChar(' ')
  {
  }
}
