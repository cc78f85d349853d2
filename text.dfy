/**
  Byte-level text helpers shared by the title parser and the object scanner.
  A `string` stands for a byte string: every character is one ASCII byte, and the
  character classes below are the ASCII members of the classes Rust uses.
 */
module Text {
  import opened Wrappers

  /** `char::is_whitespace`, restricted to ASCII. */
  predicate IsWhitespace(c: char) {
    c == ' ' || c == '\t' || c == '\n' || c == '\r' || c == '\U{000B}' || c == '\U{000C}'
  }

  predicate NotWhitespace(c: char) {
    !IsWhitespace(c)
  }

  /** The two bytes nom's `space1` accepts and `memrchr2(b' ', b'\t', _)` looks for. */
  predicate IsSpaceOrTab(c: char) {
    c == ' ' || c == '\t'
  }

  predicate IsAsciiUpper(c: char) {
    'A' <= c <= 'Z'
  }

  /** `char::is_alphanumeric`, restricted to ASCII. */
  predicate IsAlphanumeric(c: char) {
    'a' <= c <= 'z' || 'A' <= c <= 'Z' || '0' <= c <= '9'
  }

  predicate IsPrefix(a: string, b: string) {
    |a| <= |b| && b[..|a|] == a
  }

  /** `a` is what is left of `b` after some prefix of `b` was consumed. */
  predicate IsSuffix(a: string, b: string) {
    |a| <= |b| && b[|b| - |a|..] == a
  }

  lemma SuffixTransitive(a: string, b: string, c: string)
    requires IsSuffix(a, b) && IsSuffix(b, c)
    ensures IsSuffix(a, c)
  {
    assert c[|c| - |a|..] == c[|c| - |b|..][|b| - |a|..];
  }

  /** Length of the longest prefix of `s` whose bytes all satisfy `p` (nom's `take_while`). */
  function TakeWhile(s: string, p: char -> bool): (n: nat)
    ensures n <= |s|
    ensures forall i :: 0 <= i < n ==> p(s[i])
    ensures n < |s| ==> !p(s[n])
  {
    if s != [] && p(s[0]) then 1 + TakeWhile(s[1..], p) else 0
  }

  /** Length of the longest suffix of `s` whose bytes all satisfy `p`. */
  function TakeWhileEnd(s: string, p: char -> bool): (n: nat)
    ensures n <= |s|
    ensures forall i :: |s| - n <= i < |s| ==> p(s[i])
    ensures n < |s| ==> !p(s[|s| - n - 1])
  {
    if s != [] && p(s[|s| - 1]) then 1 + TakeWhileEnd(s[..|s| - 1], p) else 0
  }

  /** `str::trim_start`. */
  function TrimStart(s: string): (r: string)
    ensures IsSuffix(r, s)
    ensures forall i :: 0 <= i < |s| - |r| ==> IsWhitespace(s[i])
    ensures r == [] || !IsWhitespace(r[0])
  {
    s[TakeWhile(s, IsWhitespace)..]
  }

  /** `str::trim_end`. */
  function TrimEnd(s: string): (r: string)
    ensures IsPrefix(r, s)
    ensures forall i :: |r| <= i < |s| ==> IsWhitespace(s[i])
    ensures r == [] || !IsWhitespace(r[|r| - 1])
  {
    s[..|s| - TakeWhileEnd(s, IsWhitespace)]
  }

  /** Neither starts nor ends with whitespace. */
  predicate IsTrimmed(s: string) {
    s == [] || (!IsWhitespace(s[0]) && !IsWhitespace(s[|s| - 1]))
  }

  /** `str::trim`: `s` is whitespace + `Trim(s)` + whitespace, and `Trim(s)` neither starts nor ends with whitespace. */
  function Trim(s: string): (r: string)
    ensures var a := TakeWhile(s, IsWhitespace);
      a + |r| <= |s| && r == s[a..a + |r|] && forall i :: a + |r| <= i < |s| ==> IsWhitespace(s[i])
    ensures IsTrimmed(r)
  {
    var t := TrimStart(s);
    var r := TrimEnd(t);
    var a := |s| - |t|;
    assert r == s[a..a + |r|];
    r
  }

  /** `str::trim_end_matches(c)` for a single character: drops every trailing `c`. */
  function TrimEndMatches(s: string, c: char): (r: string)
    ensures IsPrefix(r, s)
    ensures forall i :: |r| <= i < |s| ==> s[i] == c
    ensures r == [] || r[|r| - 1] != c
  {
    s[..|s| - TakeWhileEnd(s, x => x == c)]
  }

  /** Index of the first `c` in `s` (`memchr`, nom's `take_until` for one byte). */
  function FirstIndex(s: string, c: char): (r: Option<nat>)
    ensures r.Some? ==> r.value < |s| && s[r.value] == c && forall j :: 0 <= j < r.value ==> s[j] != c
    ensures r.None? ==> forall j :: 0 <= j < |s| ==> s[j] != c
  {
    if s == [] then None
    else if s[0] == c then Some(0)
    else match FirstIndex(s[1..], c)
      case None => None
      case Some(i) => Some(i + 1)
  }

  /** Index of the last byte of `s` satisfying `p` (`memrchr2`). */
  function LastIndexWhere(s: string, p: char -> bool): (r: Option<nat>)
    ensures r.Some? ==> r.value < |s| && p(s[r.value]) && forall j :: r.value < j < |s| ==> !p(s[j])
    ensures r.None? ==> forall j :: 0 <= j < |s| ==> !p(s[j])
  {
    var n := TakeWhileEnd(s, x => !p(x));
    if n == |s| then None else Some(|s| - n - 1)
  }
}
