/**
 * Reading the title, author, release date and language out of the header of a Project
 * Gutenberg plain-text book: the text before the first `*** START OF`. Each field is found by a
 * case-insensitive regular expression; here each expression is a hand-written scan that gives
 * the match the backtracking engine gives: the leftmost label occurrence for which the rest of
 * the expression succeeds, with the greedy and lazy choices tried in the engine's order.
 */
module BookMetadata {
  import opened Wrappers
  import opened Text

  const StartMarker: string := "*** START OF"

  datatype Metadata = Metadata(title: string, author: string, releaseDate: string, language: string, sourceUrl: string)

  datatype Field = TitleField | AuthorField | DateField | LanguageField

  function Tag(f: Field): string {
    match f
    case TitleField => "Title:"
    case AuthorField => "Author:"
    case DateField => "Release date:"
    case LanguageField => "Language:"
  }

  /** The value used when a field's expression finds no match. */
  function Placeholder(f: Field): string {
    "Unknown " + Noun(f)
  }

  function Noun(f: Field): string {
    match f
    case TitleField => "Title"
    case AuthorField => "Author"
    case DateField => "Date"
    case LanguageField => "Language"
  }

  /** `\n\s*\n` at `e`: a line feed, then white space containing another line feed. */
  predicate BlankLineAt(h: string, e: nat)
    requires e < |h|
  {
    h[e] == '\n' && exists k | e + 1 <= k < SkipSpaces(h, e + 1) :: h[k] == '\n'
  }

  /**
   * Where the lazy continuation lines `(?:\n\s+[^\n]+)*?` of a title or author stop, starting
   * at the line feed `e` that ends the current line: at the first line feed followed by a blank
   * line or by the `stop` label. A continuation line must be indented; a line feed that is
   * neither followed by an indented line nor a stop ends the attempt without a match.
   */
  function ContinuationEnd(h: string, e: nat, stop: string): (r: Option<nat>)
    requires e < |h| && h[e] == '\n'
    decreases |h| - e
    ensures r.Some? ==> e <= r.value < |h|
  {
    if BlankLineAt(h, e) || LabelAt(h, stop, e + 1) then Some(e)
    else
      var c := SkipSpaces(h, e + 1);
      if c > e + 1 && c < |h| && LineEnd(h, c) < |h| then ContinuationEnd(h, LineEnd(h, c), stop)
      else None
  }

  /**
   * The captures the engine tries after the label of a title or author: the `\s*` before the
   * value gives back one character at a time, from `a` down to `lo`. The first start whose line
   * `[^\n]+` and continuation succeed is the capture `h[start..end]`.
   */
  function LinesCapture(h: string, lo: nat, a: nat, stop: string): (r: Option<(nat, nat)>)
    requires lo <= a <= |h|
    decreases a - lo
    ensures r.Some? ==> lo <= r.value.0 <= r.value.1 <= |h|
  {
    var attempt :=
      if a < |h| && h[a] != '\n' && LineEnd(h, a) < |h| then ContinuationEnd(h, LineEnd(h, a), stop) else None;
    if attempt.Some? then Some((a, attempt.value))
    else if a == lo then None
    else LinesCapture(h, lo, a - 1, stop)
  }

  /**
   * The end of the lazy `[^\[]+?` of the release date once it holds `h[..b]`: the first
   * position from `b` on that is followed by white space and a `[`, or is the end of the input.
   */
  function DateEnd(h: string, b: nat): (r: nat)
    requires b <= |h|
    decreases |h| - b
    ensures b <= r <= |h|
    ensures forall k | b <= k < r :: h[k] != '['
  {
    if b == |h| then b
    else
      var c := SkipSpaces(h, b);
      if c < |h| && h[c] == '[' then b else DateEnd(h, b + 1)
  }

  /** The first of `a`, `a - 1`, ..., `lo` at which `[^\n]+` can start, for the language. */
  function LineStart(h: string, lo: nat, a: nat): (r: Option<nat>)
    requires lo <= a <= |h|
    decreases a - lo
    ensures r.Some? ==> lo <= r.value < |h| && h[r.value] != '\n'
  {
    if a < |h| && h[a] != '\n' then Some(a)
    else if a == lo then None
    else LineStart(h, lo, a - 1)
  }

  /** The capture of field `f`'s expression when its label matches at `i`, if the rest matches. */
  function CaptureAt(h: string, i: nat, f: Field): (r: Option<(nat, nat)>)
    requires i + |Tag(f)| <= |h|
    ensures r.Some? ==> i + |Tag(f)| <= r.value.0 <= r.value.1 <= |h|
    ensures r.Some? && f == DateField ==> forall k | r.value.0 <= k < r.value.1 :: h[k] != '['
    ensures r.Some? && f == LanguageField ==> forall k | r.value.0 <= k < r.value.1 :: h[k] != '\n'
  {
    var lo := i + |Tag(f)|;
    var m := SkipSpaces(h, lo);
    match f
    case TitleField => LinesCapture(h, lo, m, "Author:")
    case AuthorField => LinesCapture(h, lo, m, "Release date:")
    case DateField =>
      if m < |h| && h[m] != '[' then Some((m, DateEnd(h, m + 1)))
      else if m > lo then Some((m - 1, DateEnd(h, m)))
      else None
    case LanguageField =>
      var s := LineStart(h, lo, m);
      if s.Some? then Some((s.value, LineEnd(h, s.value))) else None
  }

  /** `h.match(...)` for field `f`, trying label occurrences from `i` on, leftmost first. */
  function FirstMatch(h: string, i: nat, f: Field): (r: Option<(nat, nat)>)
    requires i <= |h|
    decreases |h| - i
    ensures r.Some? ==> r.value.0 <= r.value.1 <= |h|
    ensures r.Some? && f == DateField ==> forall k | r.value.0 <= k < r.value.1 :: h[k] != '['
    ensures r.Some? && f == LanguageField ==> forall k | r.value.0 <= k < r.value.1 :: h[k] != '\n'
  {
    if i + |Tag(f)| > |h| then None
    else
      var c := if LabelAt(h, Tag(f), i) then CaptureAt(h, i, f) else None;
      if c.Some? then c else FirstMatch(h, i + 1, f)
  }

  /** The placeholders already have the shape of an extracted value. */
  lemma PlaceholderShape(f: Field)
    ensures IsTrimmed(Placeholder(f)) && SingleSpaced(Placeholder(f))
    ensures '[' !in Placeholder(f) && '\n' !in Placeholder(f)
  {
    UnknownShape(Noun(f));
  }

  /** `Unknown W`, for a word `W` of letters. */
  lemma UnknownShape(w: string)
    requires w != [] && forall k | 0 <= k < |w| :: 'A' <= w[k] <= 'Z' || 'a' <= w[k] <= 'z'
    ensures var p := "Unknown " + w; IsTrimmed(p) && SingleSpaced(p) && '[' !in p && '\n' !in p
  {
    var p := "Unknown " + w;
    assert forall k | 0 <= k < |p| && k != 7 :: 'A' <= p[k] <= 'Z' || 'a' <= p[k] <= 'z' by {
      assert forall k | 8 <= k < |p| :: p[k] == w[k - 8];
    }
  }

  /**
   * What becomes of a capture: for a title or author every white-space run is turned into one
   * space, then every value is trimmed.
   */
  function Clean(capture: string, f: Field): (r: string)
    requires f == DateField ==> '[' !in capture
    requires f == LanguageField ==> '\n' !in capture
    ensures IsTrimmed(r)
    ensures (f == TitleField || f == AuthorField) ==> SingleSpaced(r)
    ensures f == DateField ==> '[' !in r
    ensures f == LanguageField ==> '\n' !in r
  {
    if f == TitleField || f == AuthorField then
      TrimKeepsSingleSpaced(CollapseSpaces(capture));
      Trim(CollapseSpaces(capture))
    else
      var r := Trim(capture);
      if f == DateField && '[' in r then TrimChars(capture, '['); r
      else if f == LanguageField && '\n' in r then TrimChars(capture, '\n'); r
      else r
  }

  /** The value of field `f` in header `h`: its cleaned capture, or its placeholder. */
  function FieldValue(h: string, f: Field): (r: string)
    ensures IsTrimmed(r)
    ensures (f == TitleField || f == AuthorField) ==> SingleSpaced(r)
    ensures f == DateField ==> '[' !in r
    ensures f == LanguageField ==> '\n' !in r
  {
    match FirstMatch(h, 0, f)
    case None => PlaceholderShape(f); Placeholder(f)
    case Some((a, e)) =>
      assert f == DateField ==> '[' !in h[a..e];
      assert f == LanguageField ==> '\n' !in h[a..e];
      Clean(h[a..e], f)
  }

  /** The four fields of header `h`, and the source URL the book came from. */
  function FromHeader(h: string, sourceUrl: string): Metadata {
    Metadata(FieldValue(h, TitleField), FieldValue(h, AuthorField), FieldValue(h, DateField),
      FieldValue(h, LanguageField), sourceUrl)
  }

  /** The shape every extracted record has. */
  predicate WellShaped(m: Metadata) {
    && IsTrimmed(m.title) && SingleSpaced(m.title)
    && IsTrimmed(m.author) && SingleSpaced(m.author)
    && IsTrimmed(m.releaseDate) && '[' !in m.releaseDate
    && IsTrimmed(m.language) && '\n' !in m.language
  }

  /**
   * `extractBookMetadata`: nothing when the text has no `*** START OF`; otherwise the fields
   * read from the text before its first occurrence, and the source URL unchanged.
   */
  function ExtractBookMetadata(bookText: string, sourceUrl: string): (r: Option<Metadata>)
    ensures r.None? <==> !Contains(bookText, StartMarker)
    ensures r.Some? ==> r.value.sourceUrl == sourceUrl && WellShaped(r.value)
    ensures r.Some? ==>
              var n := IndexOf(bookText, StartMarker).value;
              !Contains(bookText[..n], StartMarker) && r.value == FromHeader(bookText[..n], sourceUrl)
  {
    match IndexOf(bookText, StartMarker)
    case None => None
    case Some(n) =>
      assert !Contains(bookText[..n], StartMarker) by {
        forall j | 0 <= j <= n ensures !OccursAt(bookText[..n], StartMarker, j) {
          if OccursAt(bookText[..n], StartMarker, j) {
            assert bookText[..n][j..j + |StartMarker|] == bookText[j..j + |StartMarker|];
            assert OccursAt(bookText, StartMarker, j);
          }
        }
      }
      Some(FromHeader(bookText[..n], sourceUrl))
  }

  lemma {:induction false} NoLabelNoMatch(h: string, i: nat, f: Field)
    requires i <= |h|
    requires forall k | i <= k <= |h| :: !LabelAt(h, Tag(f), k)
    ensures FirstMatch(h, i, f).None?
    decreases |h| - i
  {
    if i + |Tag(f)| <= |h| {
      NoLabelNoMatch(h, i + 1, f);
    }
  }

  /** A field whose label does not occur in the header takes its placeholder. */
  lemma AbsentLabelGivesPlaceholder(h: string, f: Field)
    requires forall k | 0 <= k <= |h| :: !LabelAt(h, Tag(f), k)
    ensures FieldValue(h, f) == Placeholder(f)
  {
    NoLabelNoMatch(h, 0, f);
  }

  /**
   * Only the header is read: whatever follows the first `*** START OF`, labels included,
   * leaves the record unchanged.
   */
  lemma ReadsOnlyHeader(header: string, rest: string, sourceUrl: string)
    requires forall j | 0 <= j < |header| :: !OccursAt(header + StartMarker, StartMarker, j)
    ensures ExtractBookMetadata(header + StartMarker + rest, sourceUrl) == Some(FromHeader(header, sourceUrl))
  {
    var text := header + StartMarker + rest;
    assert OccursAt(text, StartMarker, |header|) by {
      assert text[|header|..|header| + |StartMarker|] == StartMarker;
    }
    forall j | 0 <= j < |header| ensures !OccursAt(text, StartMarker, j) {
      if OccursAt(text, StartMarker, j) {
        assert text[j..j + |StartMarker|] == (header + StartMarker)[j..j + |StartMarker|];
        assert OccursAt(header + StartMarker, StartMarker, j);
      }
    }
    assert IndexOf(text, StartMarker) == Some(|header|);
    assert text[..|header|] == header;
  }
}
