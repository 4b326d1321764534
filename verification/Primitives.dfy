/**
 The integer types and the character classes of the C locale that the runtime is written in.
 */
module Primitives {

  const INT64_MIN := -0x8000_0000_0000_0000
  const INT64_MAX := 0x7FFF_FFFF_FFFF_FFFF
  const UINT64_MAX := 0xFFFF_FFFF_FFFF_FFFF

  type int64 = n: int | INT64_MIN <= n <= INT64_MAX

  type uint64 = n: int | 0 <= n <= UINT64_MAX

  type byte = n: int | 0 <= n < 256

  /** std::isdigit */
  predicate IsDigit(c: char) { '0' <= c <= '9' }

  /** std::isalpha */
  predicate IsAlpha(c: char) { 'A' <= c <= 'Z' || 'a' <= c <= 'z' }

  /** std::isalnum */
  predicate IsAlphaNumeric(c: char) { IsAlpha(c) || IsDigit(c) }

  /** std::isspace */
  predicate IsSpace(c: char) { c == ' ' || 9 <= c as int <= 13 }

  /** std::tolower */
  function Lower(c: char): char { if 'A' <= c <= 'Z' then (c as int + 32) as char else c }

  function LowerText(s: string): (t: string)
    ensures |t| == |s| && forall i :: 0 <= i < |s| ==> t[i] == Lower(s[i])
  {
    seq(|s|, i requires 0 <= i < |s| => Lower(s[i]))
  }

  /** A path that starts with a drive letter. */
  predicate IsDrivePrefixed(s: string) { |s| >= 2 && IsAlpha(s[0]) && s[1] == ':' }
}
