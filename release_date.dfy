/**
 * The conversion of a book's release date, as the metadata reader found it (for instance
 * `January 1, 2024`), to the `YYYY-MM-DD` text sent as the book's publication date; a day of
 * more than two digits is kept whole. The date is the first match of `(\w+)\s+(\d+),\s+(\d{4})`;
 * the month is looked up, case-sensitively, in a plain object holding the English month names,
 * so a name the object inherits is found too.
 */
module ReleaseDate {
  import opened Wrappers
  import opened Text

  const DefaultDate: string := "2024-01-01"

  const Months: seq<string> := ["January", "February", "March", "April", "May", "June",
    "July", "August", "September", "October", "November", "December"]

  const MonthCodes: seq<string> := ["01", "02", "03", "04", "05", "06", "07", "08", "09", "10", "11", "12"]

  /** Every month code is two digits, and no two months share a name. */
  lemma MonthTable()
    ensures |Months| == 12 && |MonthCodes| == 12
    ensures forall i | 0 <= i < 12 :: |MonthCodes[i]| == 2 && AllDigits(MonthCodes[i])
    ensures forall i, j | 0 <= i < 12 && 0 <= j < 12 && Months[i] == Months[j] :: i == j
  {
  }

  /** The index of `month` in the table, searching from `i`. */
  function MonthFrom(month: string, i: nat): (r: Option<nat>)
    requires i <= 12
    decreases 12 - i
    ensures r.Some? ==> i <= r.value < 12 && Months[r.value] == month
    ensures r.None? ==> forall j | i <= j < 12 :: Months[j] != month
  {
    if i == 12 then None else if Months[i] == month then Some(i) else MonthFrom(month, i + 1)
  }

  /**
   * The members a plain object inherits from `Object.prototype` whose names `\w+` can match.
   * Each is a function, except `__proto__`, which is the prototype object itself.
   */
  const InheritedNames: seq<string> := ["constructor", "hasOwnProperty", "isPrototypeOf",
    "propertyIsEnumerable", "toLocaleString", "toString", "valueOf", "__proto__",
    "__defineGetter__", "__defineSetter__", "__lookupGetter__", "__lookupSetter__"]

  /**
   * How a template literal renders an inherited member: a built-in function as V8 prints its
   * source (`constructor` is the function `Object`), and the prototype object as `[object Object]`.
   */
  function InheritedRendering(name: string): (r: string)
    ensures |r| > 2
  {
    if name == "__proto__" then "[object Object]"
    else "function " + (if name == "constructor" then "Object" else name) + "() { [native code] }"
  }

  /** No month name is an inherited member's name. */
  lemma MonthsNotInherited()
    ensures forall i | 0 <= i < 12 :: Months[i] !in InheritedNames
  {
  }

  /**
   * `monthMap[month] || '01'`: the month's two-digit code; for a name the object inherits, the
   * rendering of that member, which is truthy; `01` for any other name.
   */
  function MonthNumber(month: string): (r: string)
    ensures month !in InheritedNames ==> |r| == 2 && AllDigits(r)
    ensures forall i | 0 <= i < 12 :: month == Months[i] ==> r == MonthCodes[i]
    ensures month in InheritedNames ==> r == InheritedRendering(month)
    ensures month !in Months && month !in InheritedNames ==> r == "01"
  {
    MonthTable();
    MonthsNotInherited();
    match MonthFrom(month, 0)
    case Some(i) => MonthCodes[i]
    case None => if month in InheritedNames then InheritedRendering(month) else "01"
  }

  /** `day.padStart(2, '0')`. */
  function PadDay(day: string): (r: string)
    ensures |r| == if |day| < 2 then 2 else |day|
    ensures r[|r| - |day|..] == day && forall k | 0 <= k < |r| - |day| :: r[k] == '0'
  {
    if |day| == 0 then "00" else if |day| == 1 then "0" + day else day
  }

  datatype DateMatch = DateMatch(month: string, day: string, year: string)

  /**
   * The match of the date expression starting at `p`. Each of `\w+`, `\s+` and `\d+` must take
   * its whole run: giving back a character leaves the next item facing a character it cannot
   * match.
   */
  function MatchAt(s: string, p: nat): (r: Option<DateMatch>)
    requires p <= |s|
    ensures r.Some? ==> r.value.month != [] && IsNumber(r.value.day) && |r.value.year| == 4 && AllDigits(r.value.year)
  {
    var w := WordEnd(s, p);
    var x := SkipSpaces(s, w);
    var y := DigitsEnd(s, x);
    if w == p || x == w || y == x || y == |s| || s[y] != ',' then None
    else
      var z := SkipSpaces(s, y + 1);
      if z == y + 1 || z + 4 > |s| || !AllDigits(s[z..z + 4]) then None
      else Some(DateMatch(s[p..w], s[x..y], s[z..z + 4]))
  }

  predicate IsNumber(s: string) { s != [] && AllDigits(s) }

  /** `s.match(...)`: the leftmost start from `p` on at which the expression matches. */
  function FirstDateMatch(s: string, p: nat): (r: Option<DateMatch>)
    requires p <= |s|
    decreases |s| - p
    ensures r.Some? ==> r.value.month != [] && IsNumber(r.value.day) && |r.value.year| == 4 && AllDigits(r.value.year)
    ensures r.None? ==> forall q | p <= q <= |s| :: MatchAt(s, q).None?
  {
    var m := MatchAt(s, p);
    if m.Some? then m else if p == |s| then None else FirstDateMatch(s, p + 1)
  }

  /** A date text `YYYY-MM-DD...`: four digits, a month code, and a day of at least two digits. */
  predicate IsIsoShaped(d: string) {
    && |d| >= 10 && d[4] == '-' && d[7] == '-'
    && AllDigits(d[..4]) && d[5..7] in MonthCodes && AllDigits(d[8..])
  }

  /** The looked-up code of a name the object does not inherit is one of the table's codes. */
  lemma MonthNumberInTable(month: string)
    ensures month !in InheritedNames ==> MonthNumber(month) in MonthCodes
  {
    MonthTable();
    if month in Months {
      var i :| 0 <= i < 12 && Months[i] == month;
      assert MonthNumber(month) == MonthCodes[i];
    } else if month !in InheritedNames {
      assert MonthNumber(month) == MonthCodes[0];
    }
  }

  /** A padded run of digits is a run of at least two digits. */
  lemma PadDayDigits(day: string)
    requires IsNumber(day)
    ensures |PadDay(day)| >= 2 && AllDigits(PadDay(day))
  {
    var r := PadDay(day);
    forall k | 0 <= k < |r| ensures IsDigit(r[k]) {
      if k >= |r| - |day| {
        assert r[k] == r[|r| - |day|..][k - (|r| - |day|)];
      }
    }
  }

  /** Where the three parts sit in `year-code-day`. */
  lemma IsoLayout(year: string, code: string, day: string)
    requires |year| == 4
    ensures var r := year + "-" + code + "-" + day;
      && |r| == 6 + |code| + |day| && r[4] == '-' && r[5 + |code|] == '-'
      && r[..4] == year && r[5..5 + |code|] == code && r[6 + |code|..] == day
  {
  }

  /** The date text matches with a month name the object does not inherit, or does not match. */
  predicate OrdinaryMonth(releaseDate: string) {
    FirstDateMatch(releaseDate, 0).None? || FirstDateMatch(releaseDate, 0).value.month !in InheritedNames
  }

  /**
   * The publication date of a release date: `2024-01-01` when the expression does not match;
   * otherwise the year, the month's code and the zero-padded day of the first match. It has the
   * `YYYY-MM-DD...` shape unless the month names an inherited member.
   */
  function PublishedDate(releaseDate: string): (r: string)
    ensures OrdinaryMonth(releaseDate) ==> IsIsoShaped(r)
    ensures FirstDateMatch(releaseDate, 0).None? ==> r == DefaultDate
    ensures FirstDateMatch(releaseDate, 0).Some? ==>
              var m := FirstDateMatch(releaseDate, 0).value;
              var code := MonthNumber(m.month);
              && |r| == 6 + |code| + |PadDay(m.day)| && r[4] == '-' && r[5 + |code|] == '-'
              && r[..4] == m.year && r[5..5 + |code|] == code && r[6 + |code|..] == PadDay(m.day)
  {
    match FirstDateMatch(releaseDate, 0)
    case None =>
      assert DefaultDate[5..7] == MonthCodes[0];
      DefaultDate
    case Some(m) =>
      MonthNumberInTable(m.month);
      PadDayDigits(m.day);
      IsoLayout(m.year, MonthNumber(m.month), PadDay(m.day));
      m.year + "-" + MonthNumber(m.month) + "-" + PadDay(m.day)
  }

  /** A word `\w+` takes whole. */
  predicate IsMonthName(month: string) { forall k | 0 <= k < |month| :: IsWordChar(month[k]) }

  lemma WordRun(s: string, i: nat, j: nat)
    requires i <= j <= |s| && (forall k | i <= k < j :: IsWordChar(s[k])) && (j < |s| ==> !IsWordChar(s[j]))
    ensures WordEnd(s, i) == j
  {
  }

  lemma DigitRun(s: string, i: nat, j: nat)
    requires i <= j <= |s| && (forall k | i <= k < j :: IsDigit(s[k])) && (j < |s| ==> !IsDigit(s[j]))
    ensures DigitsEnd(s, i) == j
  {
  }

  lemma OneSpace(s: string, i: nat)
    requires i + 1 < |s| && s[i] == ' ' && IsDigit(s[i + 1])
    ensures SkipSpaces(s, i) == i + 1
  {
  }

  function WrittenDate(month: string, day: string, year: string): string {
    month + " " + day + ", " + year
  }

  lemma WrittenDateLayout(month: string, day: string, year: string)
    ensures var s := WrittenDate(month, day, year); var w := |month|; var y := w + 1 + |day|;
      && |s| == y + 2 + |year|
      && (forall k | 0 <= k < w :: s[k] == month[k]) && s[w] == ' '
      && (forall k | 0 <= k < |day| :: s[w + 1 + k] == day[k]) && s[y] == ',' && s[y + 1] == ' '
      && (forall k | 0 <= k < |year| :: s[y + 2 + k] == year[k])
  {
  }

  lemma WrittenDateRuns(month: string, day: string, year: string)
    requires month != [] && IsMonthName(month) && IsNumber(day) && |year| == 4 && AllDigits(year)
    ensures var s := WrittenDate(month, day, year); var w := |month|; var y := w + 1 + |day|;
      && WordEnd(s, 0) == w && SkipSpaces(s, w) == w + 1 && DigitsEnd(s, w + 1) == y
      && SkipSpaces(s, y + 1) == y + 2
  {
    var s := WrittenDate(month, day, year);
    var w := |month|;
    var y := w + 1 + |day|;
    WrittenDateLayout(month, day, year);
    WordRun(s, 0, w);
    assert IsDigit(day[0]) && IsDigit(year[0]);
    OneSpace(s, w);
    assert forall k | w + 1 <= k < y :: s[k] == day[k - w - 1];
    DigitRun(s, w + 1, y);
    OneSpace(s, y + 1);
  }

  /** The three runs of a written date `Month D, YYYY` are what the expression captures at its start. */
  lemma WrittenDateMatches(month: string, day: string, year: string)
    requires month != [] && IsMonthName(month) && IsNumber(day) && |year| == 4 && AllDigits(year)
    ensures MatchAt(WrittenDate(month, day, year), 0) == Some(DateMatch(month, day, year))
  {
    WrittenDateRuns(month, day, year);
    WrittenDateSlices(month, day, year);
  }

  lemma WrittenDateSlices(month: string, day: string, year: string)
    requires |year| == 4
    ensures var s := WrittenDate(month, day, year); var w := |month|; var y := w + 1 + |day|;
      && |s| == y + 6 && s[y] == ',' && s[0..w] == month && s[w + 1..y] == day && s[y + 2..y + 6] == year
  {
    var s := WrittenDate(month, day, year);
    var w := |month|;
    var y := w + 1 + |day|;
    assert s == ((month + " ") + day) + (", " + year);
    assert s[y + 2..y + 6] == year;
    assert s[..y] == (month + " ") + day;
    assert s[0..w] == s[..y][0..w];
    assert s[w + 1..y] == s[..y][w + 1..y];
  }

  /**
   * A written date with a month from the table converts to its `YYYY-MM-DD` form, the day padded
   * to two digits.
   */
  lemma WrittenDateConverts(i: nat, day: string, year: string)
    requires i < 12 && IsNumber(day) && |year| == 4 && AllDigits(year)
    ensures PublishedDate(Months[i] + " " + day + ", " + year) == year + "-" + MonthCodes[i] + "-" + PadDay(day)
  {
    var s := WrittenDate(Months[i], day, year);
    assert IsMonthName(Months[i]);
    WrittenDateMatches(Months[i], day, year);
    assert FirstDateMatch(s, 0) == Some(DateMatch(Months[i], day, year));
    var r := PublishedDate(s);
    assert MonthNumber(Months[i]) == MonthCodes[i];
    assert r == r[..4] + "-" + r[5..7] + "-" + r[8..];
  }

  /**
   * A written date whose month is not in the table, a lower-case `march` for one (the lookup
   * is case-sensitive), takes month `01`.
   */
  lemma UnknownMonthIsJanuary(month: string, day: string, year: string)
    requires month != [] && IsMonthName(month) && month !in Months && month !in InheritedNames
    requires IsNumber(day) && |year| == 4 && AllDigits(year)
    ensures PublishedDate(WrittenDate(month, day, year)) == year + "-" + "01" + "-" + PadDay(day)
  {
    var s := WrittenDate(month, day, year);
    WrittenDateMatches(month, day, year);
    assert FirstDateMatch(s, 0) == Some(DateMatch(month, day, year));
    var r := PublishedDate(s);
    assert MonthNumber(month) == "01";
    assert r == year + "-" + "01" + "-" + PadDay(day) by {
      assert r == r[..4] + "-" + r[5..7] + "-" + r[8..];
    }
  }

  /** Every inherited name is a run of word characters, so `\w+` takes it whole. */
  lemma InheritedNamesAreWords()
    ensures forall i | 0 <= i < |InheritedNames| :: InheritedNames[i] != [] && IsMonthName(InheritedNames[i])
  {
    FunctionNamesAreWords();
    AccessorNamesAreWords();
  }

  lemma FunctionNamesAreWords()
    ensures forall i | 0 <= i < 7 :: InheritedNames[i] != [] && IsMonthName(InheritedNames[i])
  {
  }

  lemma AccessorNamesAreWords()
    ensures forall i | 7 <= i < 12 :: InheritedNames[i] != [] && IsMonthName(InheritedNames[i])
  {
  }

  /** A rendering starts `fu` or `[o`, neither of which is a month code. */
  lemma RenderingIsNotACode(name: string)
    ensures InheritedRendering(name)[..2] !in MonthCodes
  {
    var r := InheritedRendering(name);
    assert r[0] == 'f' || r[0] == '[';
  }

  /** The expression captures an inherited name whole, and the lookup yields its rendering. */
  lemma InheritedMonthMatches(i: nat, day: string, year: string)
    requires i < |InheritedNames| && IsNumber(day) && |year| == 4 && AllDigits(year)
    ensures FirstDateMatch(WrittenDate(InheritedNames[i], day, year), 0) == Some(DateMatch(InheritedNames[i], day, year))
    ensures MonthNumber(InheritedNames[i]) == InheritedRendering(InheritedNames[i])
  {
    var month := InheritedNames[i];
    InheritedNamesAreWords();
    WrittenDateMatches(month, day, year);
    assert FirstDateMatch(WrittenDate(month, day, year), 0) == Some(DateMatch(month, day, year));
  }

  /** The parts of a text laid out as `year-code-day`, put back together. */
  lemma LayoutJoined(r: string, year: string, code: string, day: string)
    requires |year| == 4 && |r| == 6 + |code| + |day| && r[4] == '-' && r[5 + |code|] == '-'
    requires r[..4] == year && r[5..5 + |code|] == code && r[6 + |code|..] == day
    ensures r == year + "-" + code + "-" + day
  {
    assert r == r[..4] + "-" + r[5..5 + |code|] + "-" + r[6 + |code|..];
  }

  /** A text whose month part does not start with a month code is not `YYYY-MM-DD...`. */
  lemma NotIsoShaped(r: string, code: string)
    requires |code| > 2 && |r| >= 5 + |code| && r[5..5 + |code|] == code && code[..2] !in MonthCodes
    ensures !IsIsoShaped(r)
  {
    assert r[5..7] == code[..2];
  }

  /**
   * A written date whose month names a member the object inherits, `toString` for one, takes
   * that member's rendering as its month: the result is not a `YYYY-MM-DD` date.
   */
  lemma InheritedMonthIsRendered(i: nat, day: string, year: string)
    requires i < |InheritedNames| && IsNumber(day) && |year| == 4 && AllDigits(year)
    ensures PublishedDate(WrittenDate(InheritedNames[i], day, year))
              == year + "-" + InheritedRendering(InheritedNames[i]) + "-" + PadDay(day)
    ensures !IsIsoShaped(PublishedDate(WrittenDate(InheritedNames[i], day, year)))
  {
    var month := InheritedNames[i];
    InheritedMonthMatches(i, day, year);
    var code := InheritedRendering(month);
    var r := PublishedDate(WrittenDate(month, day, year));
    LayoutJoined(r, year, code, PadDay(day));
    RenderingIsNotACode(month);
    NotIsoShaped(r, code);
  }
}
