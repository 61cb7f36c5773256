/** The character classes the shell tests for, in the C locale. */
module Chars {

  predicate IsSpace(c: char) { c == ' ' || 9 <= c as int <= 13 }

  predicate AllSpace(s: string) { forall k | 0 <= k < |s| :: IsSpace(s[k]) }

  predicate IsDigit(c: char) { '0' <= c <= '9' }

  predicate IsAlpha(c: char) { 'a' <= c <= 'z' || 'A' <= c <= 'Z' }

  predicate IsWordByte(c: char) { IsAlpha(c) || IsDigit(c) || c == '_' }

  /** The text without the white space at its start. */
  function SkipSpaces(s: string): (r: string)
    ensures |r| <= |s|
  {
    if s != [] && IsSpace(s[0]) then SkipSpaces(s[1..]) else s
  }

  function Upper(c: char): (r: char) { if 'a' <= c <= 'z' then c - 'a' + 'A' else c }

  /** The row starts with the prefix, whatever the case of its letters. */
  predicate HasPrefix(prefix: string, row: string) {
    |prefix| <= |row| && forall i | 0 <= i < |prefix| :: Upper(prefix[i]) == Upper(row[i])
  }

  predicate WordCode(n: int) { 48 <= n <= 57 || 65 <= n <= 90 || n == 95 || 97 <= n <= 122 }

  /** The classes by the codes of their bytes. */
  lemma ClassesInCodes(c: char)
    ensures IsSpace(c) <==> c as int in {9, 10, 11, 12, 13, 32}
    ensures IsDigit(c) <==> 48 <= c as int <= 57
    ensures IsWordByte(c) <==> WordCode(c as int)
  {}

  /** Equal but for the case of a letter. */
  predicate Alike(a: char, b: char) {
    a == b || (a as int == b as int + 32 && 65 <= b as int <= 90) || (b as int == a as int + 32 && 65 <= a as int <= 90)
  }

  lemma PrefixInCodes(prefix: string, row: string)
    ensures HasPrefix(prefix, row) <==> |prefix| <= |row| && forall i | 0 <= i < |prefix| :: Alike(prefix[i], row[i])
  {
    forall i | 0 <= i < |prefix| && i < |row| ensures Upper(prefix[i]) == Upper(row[i]) <==> Alike(prefix[i], row[i]) {}
  }

  /** sqlite3_strnicmp(a, b, n) == 0 for a string `a` of `n` bytes. */
  method SameStart(a: string, b: string) returns (same: bool)
    ensures same <==> HasPrefix(a, b)
  {
    var i := 0;
    while i < |a| && i < |b| && Upper(a[i]) == Upper(b[i])
      invariant i <= |a| && i <= |b|
      invariant forall k | 0 <= k < i :: Upper(a[k]) == Upper(b[k])
    {
      i := i + 1;
    }
    same := i == |a|;
  }
}
