/**
  The character sets of RFC 3986 (section 2 and appendix A), by code as RFC 2234 gives them. Nothing of the code modelled
  is used here; UrlClasses and Percent compare the code's classes with these.
*/
module Rfc3986 {

  predicate Alpha(c: char) {
    0x41 <= c as int <= 0x5a || 0x61 <= c as int <= 0x7a
  }

  predicate Digit(c: char) {
    0x30 <= c as int <= 0x39
  }

  predicate HexDig(c: char) {
    Digit(c) || 0x41 <= c as int <= 0x46 || 0x61 <= c as int <= 0x66
  }

  predicate Unreserved(c: char) {
    Alpha(c) || Digit(c) || c as int == 0x2d || c as int == 0x2e || c as int == 0x5f || c as int == 0x7e
  }

  /** "!" "$" "&" "'" "(" ")" "*" "+" "," ";" "=" */
  predicate SubDelim(c: char) {
    || c as int == 0x21 || c as int == 0x24 || 0x26 <= c as int <= 0x2c
    || c as int == 0x3b || c as int == 0x3d
  }

  /** What may stand in a path segment besides escapes: unreserved, sub-delims, ":" and "@" */
  predicate Pchar(c: char) {
    Unreserved(c) || SubDelim(c) || c as int == 0x3a || c as int == 0x40
  }

  /** An escape starts at i: "%" and two hex digits */
  predicate EscapeAt(s: string, i: nat) {
    i + 2 < |s| && s[i] as int == 0x25 && HexDig(s[i + 1]) && HexDig(s[i + 2])
  }

  /** Position i belongs to an escape. */
  predicate InEscape(s: string, i: nat) {
    EscapeAt(s, i) || (i >= 1 && EscapeAt(s, i - 1)) || (i >= 2 && EscapeAt(s, i - 2))
  }

  /** The characters of s are allowed or belong to escapes. */
  predicate Escaped(s: string, allowed: char -> bool) {
    forall i | 0 <= i < |s| :: allowed(s[i]) || InEscape(s, i)
  }

  predicate PathChar(c: char) {
    Pchar(c) || c as int == 0x2f
  }

  predicate QueryChar(c: char) {
    Pchar(c) || c as int == 0x2f || c as int == 0x3f
  }

  predicate UserinfoChar(c: char) {
    Unreserved(c) || SubDelim(c) || c as int == 0x3a
  }
}
