/**
 * The backend's two conversions between UUID keys and text: parsing a request string into a
 * key the way `uuid.UUID(s)` does, and `str(key)`, the hyphenated 8-4-4-4-12 form. Parsing ends
 * in Python's `int(h, 16)`, whose literal syntax and error text are modelled here too.
 */
module PyUuid {
  import opened Wrappers
  import opened Text
  import opened Models

  /** `s.replace(pat, '')`: every occurrence, scanned left to right without overlap, removed. */
  function RemoveAll(s: string, pat: string): (r: string)
    requires pat != []
    decreases |s|
    ensures |r| <= |s|
  {
    if |s| < |pat| then s
    else if s[..|pat|] == pat then RemoveAll(s[|pat|..], pat)
    else [s[0]] + RemoveAll(s[1..], pat)
  }

  /** A string whose characters never start `pat` has nothing to remove. */
  lemma {:induction false} RemoveAbsent(s: string, pat: string)
    requires pat != [] && forall k | 0 <= k < |s| :: s[k] != pat[0]
    ensures RemoveAll(s, pat) == s
  {
    if |s| >= |pat| {
      assert s[..|pat|][0] != pat[0];
      RemoveAbsent(s[1..], pat);
      assert s == [s[0]] + s[1..];
    }
  }

  /** Every occurrence of the character `c` removed. */
  function RemoveChar(s: string, c: char): (r: string)
    ensures |r| <= |s|
  {
    if s == [] then [] else (if s[0] == c then [] else [s[0]]) + RemoveChar(s[1..], c)
  }

  /** No `c` is left. */
  lemma {:induction false} RemoveCharRemoves(s: string, c: char)
    ensures c !in RemoveChar(s, c)
  {
    if s != [] {
      RemoveCharRemoves(s[1..], c);
    }
  }

  /** Removing `c` from hexadecimal digits and `c`s leaves hexadecimal digits, and keeps a first digit. */
  lemma {:induction false} RemoveCharKeepsDigits(s: string, c: char)
    requires forall k | 0 <= k < |s| :: IsHexDigit(s[k]) || s[k] == c
    ensures forall k | 0 <= k < |RemoveChar(s, c)| :: IsHexDigit(RemoveChar(s, c)[k])
    ensures s != [] && s[0] != c ==> RemoveChar(s, c) != [] && RemoveChar(s, c)[0] == s[0]
  {
    if s != [] {
      RemoveCharKeepsDigits(s[1..], c);
    }
  }

  /** A string without `c` is left as it is. */
  lemma {:induction false} RemoveCharAbsent(s: string, c: char)
    requires forall k | 0 <= k < |s| :: s[k] != c
    ensures RemoveChar(s, c) == s
  {
    if s != [] {
      RemoveCharAbsent(s[1..], c);
      assert s == [s[0]] + s[1..];
    }
  }

  /** With a one-character pattern, `RemoveAll` removes each occurrence of that character. */
  lemma {:induction false} RemoveAllOneChar(s: string, c: char)
    ensures RemoveAll(s, [c]) == RemoveChar(s, c)
  {
    if s != [] {
      RemoveAllOneChar(s[1..], c);
      var pat := [c];
      assert s[..|pat|] == [s[0]];
      if s[0] == c {
        assert s[..|pat|] == pat;
      } else {
        assert s[..|pat|] != pat by { assert s[..|pat|][0] != pat[0]; }
      }
    }
  }

  lemma {:induction false} RemoveCharAppendChars(a: string, b: string, c: char)
    ensures RemoveChar(a + b, c) == RemoveChar(a, c) + RemoveChar(b, c)
  {
    if a == [] {
      assert a + b == b;
    } else {
      var head := if a[0] == c then [] else [a[0]];
      var ab := a + b;
      assert ab[0] == a[0] && ab[1..] == a[1..] + b;
      assert RemoveChar(ab, c) == head + RemoveChar(a[1..] + b, c);
      RemoveCharAppendChars(a[1..], b, c);
      assert RemoveChar(a, c) == head + RemoveChar(a[1..], c);
    }
  }

  /** Removing one character distributes over concatenation. */
  lemma RemoveCharAppend(a: string, b: string, c: char)
    ensures RemoveAll(a + b, [c]) == RemoveAll(a, [c]) + RemoveAll(b, [c])
  {
    RemoveAllOneChar(a + b, c);
    RemoveAllOneChar(a, c);
    RemoveAllOneChar(b, c);
    RemoveCharAppendChars(a, b, c);
  }

  predicate IsBrace(c: char) { c == '{' || c == '}' }

  /** `s.strip('{}')`: braces removed from both ends. */
  function StripBraces(s: string): (r: string)
    decreases |s|
    ensures |r| <= |s|
    ensures r == [] || (!IsBrace(r[0]) && !IsBrace(r[|r| - 1]))
    ensures s == [] || (!IsBrace(s[0]) && !IsBrace(s[|s| - 1])) ==> r == s
  {
    if s != [] && IsBrace(s[0]) then StripBraces(s[1..])
    else if s != [] && IsBrace(s[|s| - 1]) then StripBraces(s[..|s| - 1])
    else s
  }

  /** What `uuid.UUID(s)` keeps of `s`: `urn:` and `uuid:` removed, braces stripped from the ends, hyphens removed. */
  function Cleaned(s: string): string {
    RemoveAll(StripBraces(RemoveAll(RemoveAll(s, "urn:"), "uuid:")), "-")
  }

  /**
   * The white space `int()` skips around a literal: the ASCII characters `Py_ISSPACE` accepts,
   * and the non-ASCII white space it reads as a space.
   */
  predicate IsPySpace(c: char) {
    || c == ' ' || c == '\t' || c == '\n' || c == '\r' || c == '\U{000B}' || c == '\U{000C}'
    || c == '\U{0085}' || c == '\U{00A0}' || c == '\U{1680}' || ('\U{2000}' <= c <= '\U{200A}')
    || c == '\U{2028}' || c == '\U{2029}' || c == '\U{202F}' || c == '\U{205F}' || c == '\U{3000}'
  }

  /** `s` with the white space `int()` skips removed from both ends. */
  function StripPySpace(s: string): (r: string)
    decreases |s|
    ensures |r| <= |s|
    ensures r != [] ==> r[0] in s
    ensures r == [] || (!IsPySpace(r[0]) && !IsPySpace(r[|r| - 1]))
    ensures s == [] || (!IsPySpace(s[0]) && !IsPySpace(s[|s| - 1])) ==> r == s
  {
    if s != [] && IsPySpace(s[0]) then StripPySpace(s[1..])
    else if s != [] && IsPySpace(s[|s| - 1]) then StripPySpace(s[..|s| - 1])
    else s
  }

  /** The digits of a base-16 literal: hexadecimal digits with single underscores between them. */
  predicate IsDigitRun(v: string) {
    && v != [] && IsHexDigit(v[0]) && IsHexDigit(v[|v| - 1])
    && (forall k | 0 <= k < |v| :: IsHexDigit(v[k]) || v[k] == '_')
    && (forall k | 0 <= k < |v| - 1 :: v[k] == '_' ==> v[k + 1] != '_')
  }

  /** What follows the sign once an `0x` or `0X` prefix and one underscore after it are skipped. */
  function AfterPrefix(u: string): (r: string)
    ensures |r| <= |u|
  {
    if |u| >= 2 && u[0] == '0' && (u[1] == 'x' || u[1] == 'X') then
      (if |u| >= 3 && u[2] == '_' then u[3..] else u[2..])
    else u
  }

  /** A base-16 literal `int()` accepts: its sign and its digits, underscores dropped. */
  datatype HexLiteral = HexLiteral(negative: bool, digits: string)

  /**
   * How `int(s, 16)` reads `s`: white space around it, then an optional `+` or `-`, an optional
   * prefix, and a run of digits; `None` when `s` is not such a literal.
   */
  function HexLiteralOf(s: string): (r: Option<HexLiteral>)
    ensures r.Some? ==> r.value.digits != [] && |r.value.digits| <= |s|
    ensures r.Some? ==> forall k | 0 <= k < |r.value.digits| :: IsHexDigit(r.value.digits[k])
    ensures r.Some? && r.value.negative ==> '-' in s
  {
    var t := StripPySpace(s);
    var negative := t != [] && t[0] == '-';
    var u := if t != [] && (t[0] == '+' || t[0] == '-') then t[1..] else t;
    var v := AfterPrefix(u);
    if IsDigitRun(v) then
      assert negative ==> t[0] in s;
      RemoveCharKeepsDigits(v, '_');
      Some(HexLiteral(negative, RemoveChar(v, '_')))
    else None
  }

  /** Every digit of a literal is zero: its value is 0, with either sign. */
  predicate AllZero(digits: string) { forall k | 0 <= k < |digits| :: digits[k] == '0' }

  const BadlyFormed: string := "badly formed hexadecimal UUID string"

  const OutOfRange: string := "int is out of range (need a 128-bit value)"

  /** The message of the `ValueError` `int(h, 16)` raises for a string that is not a literal. */
  function InvalidLiteral(h: string): string {
    "invalid literal for int() with base 16: " + PyRepr(h)
  }

  /** The lower-case hexadecimal digit of `d`. */
  function HexChar(d: nat): char
    requires d < 16
  {
    "0123456789abcdef"[d]
  }

  /** `n` as `width` lower-case hexadecimal digits. */
  function HexDigits(n: nat, width: nat): (r: string)
    ensures |r| == width
  {
    if width == 0 then [] else HexDigits(n / 16, width - 1) + [HexChar(n % 16)]
  }

  /**
   * The characters `repr` escapes: the C0 controls, DEL, the C1 controls, the soft hyphen and
   * the non-ASCII white space.
   */
  predicate ReprEscaped(c: char) {
    c < ' ' || ('\U{007F}' <= c <= '\U{00A0}') || c == '\U{00AD}' || (IsPySpace(c) && c != ' ')
  }

  /** One character of `repr(s)`, inside quotes `q`. */
  function ReprChar(c: char, q: char): (r: string)
    ensures r != []
  {
    if c == q || c == '\\' then ['\\', c]
    else if c == '\t' then "\\t"
    else if c == '\n' then "\\n"
    else if c == '\r' then "\\r"
    else if ReprEscaped(c) then
      if c as int < 0x100 then "\\x" + HexDigits(c as int, 2)
      else if c as int < 0x10000 then "\\u" + HexDigits(c as int, 4)
      else "\\U" + HexDigits(c as int, 8)
    else [c]
  }

  function ReprChars(s: string, q: char): string {
    if s == [] then [] else ReprChar(s[0], q) + ReprChars(s[1..], q)
  }

  /** `repr(s)`: single quotes, or double quotes when `s` holds a `'` and no `"`. */
  function PyRepr(s: string): (r: string)
    ensures |r| >= 2 && r[0] == r[|r| - 1] && (r[0] == '\'' || r[0] == '"')
  {
    var q := if '\'' in s && '"' !in s then '"' else '\'';
    [q] + ReprChars(s, q) + [q]
  }

  /** Zeros to pad a rendering on the left. */
  function Zeros(n: nat): (r: string)
    ensures |r| == n && forall k | 0 <= k < n :: r[k] == '0'
  {
    seq(n, k => '0')
  }

  lemma OneZero()
    ensures Zeros(1) == "0" && Zeros(2) == "00"
  {
  }

  /** The key for the digits of an accepted literal: its value as 32 lower-case hexadecimal digits. */
  function KeyOf(digits: string): (key: Id)
    requires |digits| <= 32 && forall k | 0 <= k < |digits| :: IsHexDigit(digits[k])
    ensures IsId(key)
    ensures key[32 - |digits|..] == ToLower(digits) && AllZero(key[..32 - |digits|])
  {
    var key := Zeros(32 - |digits|) + ToLower(digits);
    assert forall k | 0 <= k < 32 :: IsLowerHex(key[k]) by {
      forall k | 0 <= k < 32 ensures IsLowerHex(key[k]) {
        var z := 32 - |digits|;
        if k < z {
          assert key[k] == Zeros(z)[k] == '0';
        } else {
          assert key[k] == ToLower(digits)[k - z] == LowerChar(digits[k - z]);
          assert IsHexDigit(digits[k - z]);
        }
      }
    }
    assert key[32 - |digits|..] == ToLower(digits);
    key
  }

  /**
   * `uuid.UUID` once the string is cleaned to `h`: it must be 32 characters long, or the
   * `ValueError` is "badly formed hexadecimal UUID string"; then `int(h, 16)` reads it, raising
   * its own `ValueError` for a string that is not a literal, and a negative value is out of range.
   */
  function ParseCleaned(h: string): (r: Result<Id, string>)
    ensures |h| != 32 <==> r == Err(BadlyFormed)
    ensures |h| == 32 && HexLiteralOf(h).None? <==> r == Err(InvalidLiteral(h))
    ensures r.Ok? ==> HexLiteralOf(h).Some? && r.value == KeyOf(HexLiteralOf(h).value.digits)
  {
    if |h| != 32 then Err(BadlyFormed)
    else match HexLiteralOf(h)
      case None =>
        assert InvalidLiteral(h) != BadlyFormed by { assert InvalidLiteral(h)[0] != BadlyFormed[0]; }
        Err(InvalidLiteral(h))
      case Some(lit) =>
        if lit.negative && !AllZero(lit.digits) then Err(OutOfRange) else Ok(KeyOf(lit.digits))
  }

  /**
   * `uuid.UUID(s)`: the string cleaned, then read as above. An accepted string gives a key; a
   * refused one gives the text of one of the three `ValueError`s.
   */
  function ParseUuid(s: string): (r: Result<Id, string>)
    ensures r.Ok? ==> IsId(r.value)
    ensures r.Err? ==> r.error == BadlyFormed || r.error == OutOfRange || r.error == InvalidLiteral(Cleaned(s))
  {
    ParseCleaned(Cleaned(s))
  }

  /** `str(key)`: the five groups of the key joined by hyphens. */
  function Hyphenated(id: Id): (r: string)
    requires IsId(id)
    ensures |r| == 36
  {
    id[..8] + "-" + id[8..12] + "-" + id[12..16] + "-" + id[16..20] + "-" + id[20..]
  }

  /** One group without hyphens, a hyphen, then the rest: only the rest has hyphens to remove. */
  lemma DehyphenateGroup(g: string, rest: string)
    requires forall k | 0 <= k < |g| :: g[k] != '-'
    ensures RemoveAll(g + "-" + rest, "-") == g + RemoveAll(rest, "-")
  {
    RemoveAbsent(g, "-");
    RemoveCharAppend(g, "-" + rest, '-');
    RemoveCharAppend("-", rest, '-');
    assert RemoveAll("-", "-") == [];
    assert g + "-" + rest == g + ("-" + rest);
  }

  /** `str(key).replace('-', '')` is the key itself: an id rendered without hyphens is its 32 digits. */
  lemma DehyphenateHyphenated(id: Id)
    requires IsId(id)
    ensures RemoveAll(Hyphenated(id), "-") == id
  {
    assert forall k | 0 <= k < |id| :: id[k] != '-';
    var g1, g2, g3, g4, g5 := id[..8], id[8..12], id[12..16], id[16..20], id[20..];
    var t3 := g4 + "-" + g5;
    var t2 := g3 + "-" + t3;
    var t1 := g2 + "-" + t2;
    assert Hyphenated(id) == g1 + "-" + t1;
    RemoveAbsent(g5, "-");
    DehyphenateGroup(g4, g5);
    DehyphenateGroup(g3, t3);
    DehyphenateGroup(g2, t2);
    DehyphenateGroup(g1, t1);
    assert g1 + (g2 + (g3 + (g4 + g5))) == id;
  }

  /** The lower-case form of a key is the key. */
  lemma LowerOfId(id: Id)
    requires IsId(id)
    ensures ToLower(id) == id
  {
    assert forall k | 0 <= k < |id| :: LowerChar(id[k]) == id[k];
  }

  /** `int()` reads a key's 32 digits as an unsigned literal with exactly those digits. */
  lemma LiteralOfId(id: Id)
    requires IsId(id)
    ensures HexLiteralOf(id) == Some(HexLiteral(false, id))
  {
    assert StripPySpace(id) == id by { assert IsLowerHex(id[0]) && IsLowerHex(id[31]); }
    assert AfterPrefix(id) == id by { assert IsLowerHex(id[1]); }
    UnsignedLiteral(id, id, id);
  }

  /** A string that cleans to the digits of a key parses to that key. */
  lemma ParseOfCleaned(s: string, id: Id)
    requires IsId(id) && Cleaned(s) == id
    ensures ParseUuid(s) == Ok(id)
  {
    LowerOfId(id);
    LiteralOfId(id);
    assert ParseCleaned(id) == Ok(KeyOf(id));
    assert Zeros(0) + ToLower(id) == id;
  }

  /** A key's 32 digits parse to the key. */
  lemma ParseDigits(id: Id)
    requires IsId(id)
    ensures ParseUuid(id) == Ok(id)
  {
    assert forall k | 0 <= k < |id| :: id[k] != 'u' && id[k] != '-';
    RemoveAbsent(id, "urn:");
    RemoveAbsent(id, "uuid:");
    assert !IsBrace(id[0]) && !IsBrace(id[31]);
    assert StripBraces(id) == id;
    RemoveAbsent(id, "-");
    ParseOfCleaned(id, id);
  }

  /** The hyphenated rendering of a key parses to the key. */
  lemma ParseHyphenated(id: Id)
    requires IsId(id)
    ensures ParseUuid(Hyphenated(id)) == Ok(id)
  {
    var h := Hyphenated(id);
    assert forall k | 0 <= k < |h| :: h[k] != 'u' by {
      assert forall k | 0 <= k < |id| :: id[k] != 'u';
      assert forall k | 0 <= k < |h| :: h[k] in id || h[k] == '-';
    }
    RemoveAbsent(h, "urn:");
    RemoveAbsent(h, "uuid:");
    assert h[0] == id[0] && h[35] == id[31];
    assert !IsBrace(h[0]) && !IsBrace(h[35]);
    assert StripBraces(h) == h;
    DehyphenateHyphenated(id);
    ParseOfCleaned(h, id);
  }

  /**
   * Parsing accepts both renderings of a key and gives the key back: the 32 digits alone and
   * the hyphenated form.
   */
  lemma ParseRendered(id: Id)
    requires IsId(id)
    ensures ParseUuid(id) == Ok(id)
    ensures ParseUuid(Hyphenated(id)) == Ok(id)
  {
    ParseDigits(id);
    ParseHyphenated(id);
  }

  /** Hyphens are removed before `int()` reads the string, so no key is refused as negative. */
  lemma NeverOutOfRange(s: string)
    ensures ParseUuid(s) != Err(OutOfRange)
  {
    var x := StripBraces(RemoveAll(RemoveAll(s, "urn:"), "uuid:"));
    RemoveAllOneChar(x, '-');
    RemoveCharRemoves(x, '-');
  }

  /** A string without `u`, hyphens or braces is what `uuid.UUID` hands to `int()`. */
  lemma CleanedPlain(h: string)
    requires forall k | 0 <= k < |h| :: h[k] != 'u' && h[k] != '-' && !IsBrace(h[k])
    ensures Cleaned(h) == h
  {
    RemoveAbsent(h, "urn:");
    RemoveAbsent(h, "uuid:");
    assert StripBraces(h) == h;
    RemoveAbsent(h, "-");
  }

  /** Characters `repr` neither escapes nor quotes are written as they are. */
  lemma {:induction false} ReprPlain(s: string, q: char)
    requires forall k | 0 <= k < |s| :: s[k] != q && s[k] != '\\' && s[k] != '\t' && s[k] != '\n' && s[k] != '\r' && !ReprEscaped(s[k])
    ensures ReprChars(s, q) == s
  {
    if s != [] {
      ReprPlain(s[1..], q);
      assert s == [s[0]] + s[1..];
    }
  }

  /** Lower-case hexadecimal digits are a digit run without underscores. */
  lemma DigitRunOfHex(d: string)
    requires d != [] && forall k | 0 <= k < |d| :: IsLowerHex(d[k])
    ensures IsDigitRun(d) && RemoveChar(d, '_') == d && ToLower(d) == d
  {
    assert forall k | 0 <= k < |d| :: IsHexDigit(d[k]) && d[k] != '_' && LowerChar(d[k]) == d[k];
    RemoveCharAbsent(d, '_');
  }

  /** An unsigned literal: once stripped, no sign, and digits after the optional prefix. */
  lemma UnsignedLiteral(h: string, t: string, d: string)
    requires StripPySpace(h) == t && t != [] && t[0] != '+' && t[0] != '-' && AfterPrefix(t) == d
    requires d != [] && forall k | 0 <= k < |d| :: IsLowerHex(d[k])
    ensures HexLiteralOf(h) == Some(HexLiteral(false, d))
  {
    DigitRunOfHex(d);
  }

  /** A cleaned 32-character string holding an unsigned literal parses to its digits, zero-padded. */
  lemma ParseOfLiteral(h: string, d: string)
    requires |h| == 32 && Cleaned(h) == h && HexLiteralOf(h) == Some(HexLiteral(false, d))
    requires d != [] && forall k | 0 <= k < |d| :: IsLowerHex(d[k])
    ensures ParseUuid(h) == Ok(Zeros(32 - |d|) + d)
  {
    DigitRunOfHex(d);
    assert ParseCleaned(h) == Ok(KeyOf(d));
    assert KeyOf(d) == Zeros(32 - |d|) + d;
  }

  lemma PrefixedCleaned(d: string)
    requires |d| == 30 && forall k | 0 <= k < 30 :: IsLowerHex(d[k])
    ensures Cleaned("0x" + d) == "0x" + d
  {
    var h := "0x" + d;
    assert forall k | 0 <= k < |h| :: h[k] == '0' || h[k] == 'x' || IsLowerHex(h[k]);
    CleanedPlain(h);
  }

  lemma PrefixedLiteral(d: string)
    requires |d| == 30 && forall k | 0 <= k < 30 :: IsLowerHex(d[k])
    ensures HexLiteralOf("0x" + d) == Some(HexLiteral(false, d))
  {
    var h := "0x" + d;
    assert StripPySpace(h) == h by { assert h[0] == '0' && h[31] == d[29]; }
    assert AfterPrefix(h) == d by { assert h[2..] == d; }
    UnsignedLiteral(h, h, d);
  }

  /** `0x` and 30 digits: `int()` skips the prefix, so the key is the digits behind two zeros. */
  lemma PrefixedDigits(d: string)
    requires |d| == 30 && forall k | 0 <= k < 30 :: IsLowerHex(d[k])
    ensures ParseUuid("0x" + d) == Ok("00" + d)
  {
    PrefixedCleaned(d);
    PrefixedLiteral(d);
    ParseOfLiteral("0x" + d, d);
    OneZero();
  }

  lemma PaddedCleaned(d: string)
    requires |d| == 31 && forall k | 0 <= k < 31 :: IsLowerHex(d[k])
    ensures Cleaned(" " + d) == " " + d
  {
    var h := " " + d;
    assert forall k | 0 <= k < |h| :: h[k] == ' ' || IsLowerHex(h[k]);
    CleanedPlain(h);
  }

  lemma PaddedLiteral(d: string)
    requires |d| == 31 && forall k | 0 <= k < 31 :: IsLowerHex(d[k])
    ensures HexLiteralOf(" " + d) == Some(HexLiteral(false, d))
  {
    var h := " " + d;
    assert StripPySpace(h) == d by {
      assert h[1..] == d;
      assert !IsPySpace(d[0]) && !IsPySpace(d[30]);
    }
    assert AfterPrefix(d) == d by { assert d[1] != 'x' && d[1] != 'X'; }
    UnsignedLiteral(h, d, d);
  }

  /** A space and 31 digits: `int()` skips the space, so the key is the digits behind one zero. */
  lemma PaddedDigits(d: string)
    requires |d| == 31 && forall k | 0 <= k < 31 :: IsLowerHex(d[k])
    ensures ParseUuid(" " + d) == Ok("0" + d)
  {
    PaddedCleaned(d);
    PaddedLiteral(d);
    ParseOfLiteral(" " + d, d);
    OneZero();
  }

  lemma NotHexParts(g: string)
    requires |g| == 32 && forall k | 0 <= k < 32 :: g[k] == 'g'
    ensures Cleaned(g) == g && HexLiteralOf(g).None?
  {
    CleanedPlain(g);
    assert StripPySpace(g) == g;
    assert AfterPrefix(g) == g;
    assert !IsHexDigit(g[0]);
  }

  lemma NotHexRepr(g: string)
    requires forall k | 0 <= k < |g| :: g[k] == 'g'
    ensures PyRepr(g) == "'" + g + "'"
  {
    assert '\'' !in g;
    ReprPlain(g, '\'');
  }

  /**
   * Thirty-two `g`s have the length of a key but are not a literal: the error is the one
   * `int()` raises, quoting the string, not "badly formed hexadecimal UUID string".
   */
  lemma NotHexDigits(g: string)
    requires |g| == 32 && forall k | 0 <= k < 32 :: g[k] == 'g'
    ensures ParseUuid(g) == Err("invalid literal for int() with base 16: " + ("'" + g + "'"))
  {
    NotHexParts(g);
    NotHexRepr(g);
  }
}
