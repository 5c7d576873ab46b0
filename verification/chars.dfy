/** The C library's character classes and case conversions in the "C"
    locale, as the command parsers use them (`isspace`, `isalnum`,
    `tolower`, `toupper`). */
module Chars {
  import opened Decimal

  /** isspace: blank, tab, newline, vertical tab, form feed, return. */
  predicate IsSpace(c: char)
  {
    c == ' ' || c == '\t' || c == '\n' || c == '\U{B}' || c == '\U{C}' || c == '\r'
  }

  predicate IsLetter(c: char)
  {
    'a' <= c <= 'z' || 'A' <= c <= 'Z'
  }

  /** isalnum */
  predicate IsAlnum(c: char)
  {
    IsLetter(c) || IsDigit(c)
  }

  /** tolower: upper-case letters map to lower case, everything else to
      itself. */
  function ToLower(c: char): (r: char)
    ensures 'A' <= c <= 'Z' ==> 'a' <= r <= 'z' && r as int == c as int + 32
    ensures !('A' <= c <= 'Z') ==> r == c
  {
    if 'A' <= c <= 'Z' then (c as int - 'A' as int + 'a' as int) as char else c
  }

  /** toupper: lower-case letters map to upper case, everything else to
      itself. */
  function ToUpper(c: char): (r: char)
    ensures 'a' <= c <= 'z' ==> 'A' <= r <= 'Z' && r as int == c as int - 32
    ensures !('a' <= c <= 'z') ==> r == c
  {
    if 'a' <= c <= 'z' then (c as int - 'a' as int + 'A' as int) as char else c
  }

  /** A string folded to upper case, character by character. */
  function UpperCase(s: string): (r: string)
    ensures |r| == |s| && forall k | 0 <= k < |s| :: r[k] == ToUpper(s[k])
  {
    seq(|s|, k requires 0 <= k < |s| => ToUpper(s[k]))
  }

  /** Folding to upper case twice is folding once. */
  lemma {:induction false} UpperCaseIdempotent(s: string)
    ensures UpperCase(UpperCase(s)) == UpperCase(s)
  {
  }

  /** Folding keeps the classes the parsers test. */
  lemma {:induction false} ToUpperKeepsClass(c: char)
    ensures IsAlnum(ToUpper(c)) <==> IsAlnum(c)
    ensures IsSpace(ToUpper(c)) <==> IsSpace(c)
    ensures ToLower(ToUpper(c)) == ToLower(c)
  {
  }
}
