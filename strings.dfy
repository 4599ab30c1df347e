/**
 * The .NET string helpers the core relies on: white-space tests, trimming and
 * the ordinal case-insensitive comparison used for URI schemes.
 */
module Strings {
  import opened Wrappers

  /** Char.IsWhiteSpace, restricted to the ASCII and Latin-1 white-space characters. */
  predicate IsWhiteSpace(c: char) {
    c == ' ' || c == '\t' || c == '\n' || c == '\U{B}' || c == '\U{C}' || c == '\r'
    || c == '\U{85}' || c == '\U{A0}'
  }

  /** string.IsNullOrWhiteSpace: null, empty, or white space only. */
  predicate IsNullOrWhiteSpace(s: Option<string>) {
    s.None? || forall i :: 0 <= i < |s.value| ==> IsWhiteSpace(s.value[i])
  }

  /** StringExtensions.Valid: a non-null string that is not blank. */
  predicate Valid(s: Option<string>) {
    !IsNullOrWhiteSpace(s)
  }

  /** Drops the leading characters that satisfy `drop` (TrimStartSpec). */
  function TrimStart(s: string, drop: char -> bool): string {
    if s != [] && drop(s[0]) then TrimStart(s[1..], drop) else s
  }

  /** Drops the trailing characters that satisfy `drop` (TrimEndSpec). */
  function TrimEnd(s: string, drop: char -> bool): string {
    if s != [] && drop(s[|s| - 1]) then TrimEnd(s[..|s| - 1], drop) else s
  }

  /** string.Trim(chars): both ends trimmed of the characters satisfying `drop`. */
  function TrimBy(s: string, drop: char -> bool): string {
    TrimEnd(TrimStart(s, drop), drop)
  }

  /** TrimStart removes exactly the longest prefix of dropped characters. */
  lemma {:induction false} TrimStartSpec(s: string, drop: char -> bool)
    ensures |TrimStart(s, drop)| <= |s|
    ensures TrimStart(s, drop) == s[|s| - |TrimStart(s, drop)|..]
    ensures forall i :: 0 <= i < |s| - |TrimStart(s, drop)| ==> drop(s[i])
    ensures TrimStart(s, drop) != [] ==> !drop(TrimStart(s, drop)[0])
  {
    if s != [] && drop(s[0]) {
      var rest := s[1..];
      TrimStartSpec(rest, drop);
      var r := TrimStart(rest, drop);
      assert TrimStart(s, drop) == r;
      assert rest[|rest| - |r|..] == s[|s| - |r|..];
      forall i | 0 <= i < |s| - |r|
        ensures drop(s[i])
      {
        if i > 0 {
          assert s[i] == rest[i - 1];
        }
      }
    }
  }

  /** TrimEnd removes exactly the longest suffix of dropped characters. */
  lemma {:induction false} TrimEndSpec(s: string, drop: char -> bool)
    ensures |TrimEnd(s, drop)| <= |s|
    ensures TrimEnd(s, drop) == s[..|TrimEnd(s, drop)|]
    ensures forall i :: |TrimEnd(s, drop)| <= i < |s| ==> drop(s[i])
    ensures TrimEnd(s, drop) != [] ==> !drop(TrimEnd(s, drop)[|TrimEnd(s, drop)| - 1])
  {
    if s != [] && drop(s[|s| - 1]) {
      var rest := s[..|s| - 1];
      TrimEndSpec(rest, drop);
      var r := TrimEnd(rest, drop);
      assert TrimEnd(s, drop) == r;
      assert rest[..|r|] == s[..|r|];
      forall i | |r| <= i < |s|
        ensures drop(s[i])
      {
        if i < |s| - 1 {
          assert s[i] == rest[i];
        }
      }
    }
  }

  /** A trimmed string is a slice of the original that neither starts nor ends with a dropped character. */
  lemma TrimBySpec(s: string, drop: char -> bool)
    ensures exists i, j :: 0 <= i <= j <= |s| && TrimBy(s, drop) == s[i..j]
    ensures TrimBy(s, drop) != [] ==> !drop(TrimBy(s, drop)[0]) && !drop(TrimBy(s, drop)[|TrimBy(s, drop)| - 1])
  {
    var t := TrimStart(s, drop);
    TrimStartSpec(s, drop);
    TrimEndSpec(t, drop);
    var i := |s| - |t|;
    var j := i + |TrimEnd(t, drop)|;
    assert TrimBy(s, drop) == s[i..j];
  }

  /** ASCII lower-casing, the part of case folding a URI scheme needs. */
  function ToLowerAscii(c: char): (r: char)
    ensures 'A' <= c <= 'Z' ==> r as int == c as int + 32
    ensures !('A' <= c <= 'Z') ==> r == c
  {
    if 'A' <= c <= 'Z' then (c as int + 32) as char else c
  }

  /** OIEquals: ordinal, case-insensitive equality (case folding limited to ASCII). */
  predicate EqualsIgnoreCase(a: string, b: string) {
    |a| == |b| && forall i :: 0 <= i < |a| ==> ToLowerAscii(a[i]) == ToLowerAscii(b[i])
  }
}
