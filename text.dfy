/**
 * String primitives of the JavaScript and Python runtimes that the modelled code relies on:
 * the white-space class of `\s` and `trim()`, `indexOf`, case-insensitive label matching
 * (ASCII letters only), and the scans the hand-written regular-expression matchers share.
 */
module Text {
  import opened Wrappers

  /** The characters matched by `\s` in a JavaScript regular expression and removed by `trim()`. */
  predicate IsSpace(c: char) {
    || c == ' ' || c == '\t' || c == '\n' || c == '\r' || c == '\U{000B}' || c == '\U{000C}'
    || c == '\U{00A0}' || c == '\U{1680}' || ('\U{2000}' <= c <= '\U{200A}')
    || c == '\U{2028}' || c == '\U{2029}' || c == '\U{202F}' || c == '\U{205F}'
    || c == '\U{3000}' || c == '\U{FEFF}'
  }

  /** A character outside the Basic Multilingual Plane: JavaScript stores it as a surrogate pair. */
  predicate IsAstral(c: char) { c as int >= 0x10000 }

  /** JavaScript's `length`: UTF-16 code units, two for an astral character and one for any other. */
  function Utf16Length(s: string): (n: nat)
    ensures |s| <= n <= 2 * |s|
    ensures (forall k | 0 <= k < |s| :: !IsAstral(s[k])) ==> n == |s|
    ensures (forall k | 0 <= k < |s| :: IsAstral(s[k])) ==> n == 2 * |s|
  {
    if s == [] then 0 else (if IsAstral(s[0]) then 2 else 1) + Utf16Length(s[1..])
  }

  /** `\d` (without the `u` flag): an ASCII digit. */
  predicate IsDigit(c: char) { '0' <= c <= '9' }

  /** `[0-9a-f]` under the `i` flag. */
  predicate IsHexDigit(c: char) { IsDigit(c) || 'a' <= c <= 'f' || 'A' <= c <= 'F' }

  /** `\w`: ASCII letters, digits and the underscore. */
  predicate IsWordChar(c: char) { IsDigit(c) || 'a' <= c <= 'z' || 'A' <= c <= 'Z' || c == '_' }

  predicate AllDigits(s: string) { forall k | 0 <= k < |s| :: IsDigit(s[k]) }

  predicate AllSpace(s: string) { forall k | 0 <= k < |s| :: IsSpace(s[k]) }

  /** No white space at either end, as `trim()` leaves a string. */
  predicate IsTrimmed(s: string) { s == [] || (!IsSpace(s[0]) && !IsSpace(s[|s| - 1])) }

  /** The only white space is the plain space, and never two in a row. */
  predicate SingleSpaced(s: string) {
    forall k | 0 <= k < |s| :: IsSpace(s[k]) ==> s[k] == ' ' && (k + 1 < |s| ==> s[k + 1] != ' ')
  }

  function LowerChar(c: char): char { if 'A' <= c <= 'Z' then (c as int + 32) as char else c }

  function UpperChar(c: char): char { if 'a' <= c <= 'z' then (c as int - 32) as char else c }

  /** `toLowerCase()` restricted to ASCII letters. */
  function ToLower(s: string): (r: string)
    ensures |r| == |s| && forall k | 0 <= k < |s| :: r[k] == LowerChar(s[k])
  {
    seq(|s|, k requires 0 <= k < |s| => LowerChar(s[k]))
  }

  /** `toUpperCase()` restricted to ASCII letters. */
  function ToUpper(s: string): (r: string)
    ensures |r| == |s| && forall k | 0 <= k < |s| :: r[k] == UpperChar(s[k])
  {
    seq(|s|, k requires 0 <= k < |s| => UpperChar(s[k]))
  }

  predicate StartsWith(s: string, prefix: string) { prefix <= s }

  predicate EndsWith(s: string, suffix: string) {
    |suffix| <= |s| && s[|s| - |suffix|..] == suffix
  }

  /** `pat` occurs in `s` starting at index `i`. */
  predicate OccursAt(s: string, pat: string, i: int) {
    0 <= i && i + |pat| <= |s| && s[i..i + |pat|] == pat
  }

  predicate Contains(s: string, pat: string) { exists i | 0 <= i <= |s| :: OccursAt(s, pat, i) }

  /** `s.indexOf(pat, from)`, with -1 as `None`. */
  function IndexOfFrom(s: string, pat: string, from: nat): (r: Option<nat>)
    decreases |s| - from
    ensures r.Some? ==> from <= r.value && OccursAt(s, pat, r.value)
    ensures r.Some? ==> forall j | from <= j < r.value :: !OccursAt(s, pat, j)
    ensures r.None? ==> forall j | from <= j :: !OccursAt(s, pat, j)
  {
    if from + |pat| > |s| then None
    else if s[from..from + |pat|] == pat then Some(from)
    else IndexOfFrom(s, pat, from + 1)
  }

  /** `s.indexOf(pat)`: the first occurrence, `None` standing for -1. */
  function IndexOf(s: string, pat: string): (r: Option<nat>)
    ensures r.Some? <==> Contains(s, pat)
    ensures r.Some? ==> OccursAt(s, pat, r.value) && forall j | 0 <= j < r.value :: !OccursAt(s, pat, j)
  {
    IndexOfFrom(s, pat, 0)
  }

  /** A label such as `Title:` matches at `i`, ignoring the case of ASCII letters (the `i` flag). */
  predicate LabelAt(s: string, tag: string, i: int) {
    0 <= i && i + |tag| <= |s| && ToLower(s[i..i + |tag|]) == ToLower(tag)
  }

  /** The end of the run of white space starting at `i`: what a greedy `\s*` consumes. */
  function SkipSpaces(s: string, i: nat): (r: nat)
    requires i <= |s|
    decreases |s| - i
    ensures i <= r <= |s| && (r < |s| ==> !IsSpace(s[r]))
    ensures forall k | i <= k < r :: IsSpace(s[k])
  {
    if i < |s| && IsSpace(s[i]) then SkipSpaces(s, i + 1) else i
  }

  /** The index of the first line feed at or after `i`, or `|s|`: what a greedy `[^\n]*` consumes. */
  function LineEnd(s: string, i: nat): (r: nat)
    requires i <= |s|
    decreases |s| - i
    ensures i <= r <= |s| && (r < |s| ==> s[r] == '\n')
    ensures forall k | i <= k < r :: s[k] != '\n'
  {
    if i < |s| && s[i] != '\n' then LineEnd(s, i + 1) else i
  }

  /** The end of the run of ASCII digits starting at `i`: what a greedy `\d*` consumes. */
  function DigitsEnd(s: string, i: nat): (r: nat)
    requires i <= |s|
    decreases |s| - i
    ensures i <= r <= |s| && (r < |s| ==> !IsDigit(s[r]))
    ensures forall k | i <= k < r :: IsDigit(s[k])
  {
    if i < |s| && IsDigit(s[i]) then DigitsEnd(s, i + 1) else i
  }

  /** The end of the run of word characters starting at `i`: what a greedy `\w*` consumes. */
  function WordEnd(s: string, i: nat): (r: nat)
    requires i <= |s|
    decreases |s| - i
    ensures i <= r <= |s| && (r < |s| ==> !IsWordChar(s[r]))
    ensures forall k | i <= k < r :: IsWordChar(s[k])
  {
    if i < |s| && IsWordChar(s[i]) then WordEnd(s, i + 1) else i
  }

  /** The start of the run of white space ending at `j`. */
  function SpaceRunStart(s: string, j: nat): (r: nat)
    requires j <= |s|
    ensures r <= j && (r > 0 ==> !IsSpace(s[r - 1]))
    ensures forall k | r <= k < j :: IsSpace(s[k])
  {
    if j > 0 && IsSpace(s[j - 1]) then SpaceRunStart(s, j - 1) else j
  }

  /** `s.trimStart()`. */
  function TrimStart(s: string): (r: string)
    ensures |r| <= |s| && r == s[|s| - |r|..] && AllSpace(s[..|s| - |r|])
    ensures r == [] || !IsSpace(r[0])
    ensures r == [] <==> AllSpace(s)
  {
    var n := SkipSpaces(s, 0);
    assert AllSpace(s[..n]) by {
      assert forall k | 0 <= k < n :: s[..n][k] == s[k];
    }
    s[n..]
  }

  /** `s.trimEnd()`. */
  function TrimEnd(s: string): (r: string)
    ensures |r| <= |s| && r == s[..|r|] && AllSpace(s[|r|..])
    ensures r == [] || !IsSpace(r[|r| - 1])
    ensures r == [] <==> AllSpace(s)
  {
    var n := SpaceRunStart(s, |s|);
    assert AllSpace(s[n..]) by {
      assert forall k | 0 <= k < |s| - n :: s[n..][k] == s[n + k];
    }
    s[..n]
  }

  /** `s.trim()`: white space removed from both ends and nothing else changed. */
  function Trim(s: string): (r: string)
    ensures IsTrimmed(r) && |r| <= |s|
    ensures r == [] <==> AllSpace(s)
    ensures IsTrimmed(s) ==> r == s
  {
    TrimEnd(TrimStart(s))
  }

  /** Every character of `Trim(s)` is a character of `s`. */
  lemma TrimChars(s: string, c: char)
    requires c in Trim(s)
    ensures c in s
  {
    var t := TrimStart(s);
    var r := TrimEnd(t);
    var k :| 0 <= k < |r| && r[k] == c;
    assert t[k] == c;
    assert s[|s| - |t| + k] == c;
  }

  lemma SingleSpacedSlice(s: string, i: nat, j: nat)
    requires SingleSpaced(s) && i <= j <= |s|
    ensures SingleSpaced(s[i..j])
  {
    var t := s[i..j];
    forall k | 0 <= k < |t| && IsSpace(t[k])
      ensures t[k] == ' ' && (k + 1 < |t| ==> t[k + 1] != ' ')
    {
      assert t[k] == s[i + k];
      if k + 1 < |t| { assert t[k + 1] == s[i + k + 1]; }
    }
  }

  /** `Trim` keeps single spacing: it only cuts a slice out of its argument. */
  lemma TrimKeepsSingleSpaced(s: string)
    requires SingleSpaced(s)
    ensures SingleSpaced(Trim(s))
  {
    var t := TrimStart(s);
    SingleSpacedSlice(s, |s| - |t|, |s|);
    assert t == s[|s| - |t|..|s|];
    var r := TrimEnd(t);
    SingleSpacedSlice(t, 0, |r|);
    assert r == t[0..|r|];
  }

  lemma SpaceThenAllSpace(rest: string)
    ensures AllSpace([' '] + rest) <==> AllSpace(rest)
  {
    assert forall k | 0 <= k < |rest| :: rest[k] == ([' '] + rest)[k + 1];
  }

  lemma SkippedAllSpace(s: string, n: nat)
    requires n == SkipSpaces(s, 0)
    ensures AllSpace(s) <==> AllSpace(s[n..])
  {
    assert s == s[..n] + s[n..];
    assert AllSpace(s[..n]);
  }

  /** `s.replace(/\s+/g, ' ')`: every maximal run of white space becomes one plain space. */
  function CollapseSpaces(s: string): (r: string)
    decreases |s|
    ensures SingleSpaced(r)
    ensures r == [] <==> s == []
    ensures r != [] ==> (IsSpace(r[0]) <==> IsSpace(s[0]))
    ensures forall c | c in r && c != ' ' :: c in s
    ensures AllSpace(r) <==> AllSpace(s)
  {
    if s == [] then []
    else if IsSpace(s[0]) then
      var n := SkipSpaces(s, 0);
      var rest := CollapseSpaces(s[n..]);
      SpaceThenAllSpace(rest);
      SkippedAllSpace(s, n);
      assert forall c | c in s[n..] :: c in s;
      [' '] + rest
    else
      var rest := CollapseSpaces(s[1..]);
      assert s == [s[0]] + s[1..];
      [s[0]] + rest
  }

  function DigitChar(d: nat): char
    requires d < 10
  {
    "0123456789"[d]
  }

  /** The decimal rendering of a number, as a template literal writes an integer. */
  function NatToString(n: nat): (r: string)
    ensures r != [] && AllDigits(r)
    ensures |r| > 1 ==> r[0] != '0'
  {
    if n < 10 then [DigitChar(n)]
    else
      var rest := NatToString(n / 10);
      assert rest[0] != '0' by {
        if |rest| == 1 { assert n / 10 >= 1; }
      }
      rest + [DigitChar(n % 10)]
  }
}
