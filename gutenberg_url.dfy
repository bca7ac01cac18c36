/**
 * The admin page's checks on a submitted Project Gutenberg address, and its normalisation to
 * the address of the book's plain-text file: a `/cache/epub/N/pgM.txt` address is kept, a
 * `/ebooks/N` address becomes `/cache/epub/N/pgN.txt`, anything else is refused with the
 * message the page shows. Whether the browser's `URL` constructor accepts the address is an
 * input.
 */
module GutenbergUrl {
  import opened Wrappers
  import opened Text

  const Site: string := "https://www.gutenberg.org"
  const SitePrefix: string := "https://www.gutenberg.org/"
  const ProxyPath: string := "/api/gutenberg"

  const EnterUrl: string := "Please enter a URL"
  const InvalidUrl: string := "Please enter a valid URL"
  const NotGutenberg: string := "Please enter a valid Project Gutenberg URL"
  const UnknownFormat: string :=
    "Please enter a valid URL format (e.g., https://www.gutenberg.org/ebooks/77254 or https://www.gutenberg.org/cache/epub/77251/pg77251.txt)"

  predicate IsNumber(s: string) { s != [] && AllDigits(s) }

  /** `s` is `/cache/epub/N/pgM.txt` with `N` and `M` runs of digits. */
  predicate DirectTail(s: string) {
    && |s| >= 21 && s[..12] == "/cache/epub/" && s[|s| - 4..] == ".txt"
    && exists k | 13 <= k <= |s| - 8 :: IsNumber(s[12..k]) && s[k..k + 3] == "/pg" && IsNumber(s[k + 3..|s| - 4])
  }

  /** `/\/cache\/epub\/(\d+)\/pg\d+\.txt$/` matches: some suffix of the address is a direct tail. */
  predicate IsDirectTextUrl(url: string) {
    exists p | 0 <= p <= |url| :: DirectTail(url[p..])
  }

  /**
   * The number captured by `/\/ebooks\/(\d+)/`, scanning from `i`: at the leftmost `/ebooks/`
   * followed by a digit, the whole run of digits there.
   */
  function EbookNumberFrom(url: string, i: nat): (r: Option<string>)
    requires i <= |url|
    decreases |url| - i
    ensures r.Some? ==> IsNumber(r.value)
    ensures r.None? ==> forall p | i <= p && p + 8 < |url| :: !(OccursAt(url, "/ebooks/", p) && IsDigit(url[p + 8]))
  {
    if i + 8 >= |url| then None
    else if url[i..i + 8] == "/ebooks/" && IsDigit(url[i + 8]) then Some(url[i + 8..DigitsEnd(url, i + 8)])
    else EbookNumberFrom(url, i + 1)
  }

  function EbookNumber(url: string): (r: Option<string>)
    ensures r.Some? ==> IsNumber(r.value)
  {
    EbookNumberFrom(url, 0)
  }

  /** The plain-text address of book `n`. */
  function TextUrlFor(n: string): string {
    SitePrefix + "cache/epub/" + n + "/pg" + n + ".txt"
  }

  /** The path part of book `n`'s plain-text address is a direct tail. */
  lemma TextPathIsDirectTail(n: string)
    requires IsNumber(n)
    ensures DirectTail("/cache/epub/" + n + "/pg" + n + ".txt")
  {
    var tail := "/cache/epub/" + n + "/pg" + n + ".txt";
    var k := 12 + |n|;
    assert tail == ("/cache/epub/" + n) + ("/pg" + n + ".txt");
    assert tail[12..k] == n;
    assert tail[k..] == "/pg" + n + ".txt";
    assert tail[k..k + 3] == "/pg";
    assert tail[k + 3..|tail| - 4] == n;
    assert tail[|tail| - 4..] == ".txt";
  }

  /** The plain-text address of a numbered book is a direct text address. */
  lemma TextUrlIsDirect(n: string)
    requires IsNumber(n)
    ensures StartsWith(TextUrlFor(n), SitePrefix) && IsDirectTextUrl(TextUrlFor(n))
  {
    var u := TextUrlFor(n);
    var tail := "/cache/epub/" + n + "/pg" + n + ".txt";
    assert u == "https://www.gutenberg.org" + tail;
    assert u[25..] == tail;
    TextPathIsDirectTail(n);
    assert u[..|SitePrefix|] == SitePrefix;
  }

  /**
   * `handleSubmit`'s checks and normalisation: a blank address, one the `URL` constructor
   * refuses (`parses` false), one outside `https://www.gutenberg.org/`, and one of neither known
   * form are refused with the page's message; otherwise the plain-text address to fetch.
   */
  function NormalizeUrl(url: string, parses: bool): (r: Result<string, string>)
    ensures Trim(url) == [] ==> r == Err(EnterUrl)
    ensures Trim(url) != [] && !parses ==> r == Err(InvalidUrl)
    ensures Trim(url) != [] && parses && !StartsWith(url, SitePrefix) ==> r == Err(NotGutenberg)
    ensures r.Ok? <==> Trim(url) != [] && parses && StartsWith(url, SitePrefix) && (IsDirectTextUrl(url) || EbookNumber(url).Some?)
    ensures r.Err? && Trim(url) != [] && parses && StartsWith(url, SitePrefix) ==> r == Err(UnknownFormat)
    ensures r.Ok? && IsDirectTextUrl(url) ==> r.value == url
    ensures r.Ok? && !IsDirectTextUrl(url) ==> r.value == TextUrlFor(EbookNumber(url).value)
    ensures r.Ok? ==> StartsWith(r.value, SitePrefix) && IsDirectTextUrl(r.value)
  {
    if Trim(url) == [] then Err(EnterUrl)
    else if !parses then Err(InvalidUrl)
    else if !StartsWith(url, SitePrefix) then Err(NotGutenberg)
    else if IsDirectTextUrl(url) then Ok(url)
    else
      match EbookNumber(url)
      case None => Err(UnknownFormat)
      case Some(n) => TextUrlIsDirect(n); Ok(TextUrlFor(n))
  }

  /**
   * Normalisation is idempotent: the address it produces, submitted again, is accepted and
   * kept as it is.
   */
  lemma NormalizeIdempotent(url: string, parses: bool)
    requires NormalizeUrl(url, parses).Ok?
    ensures NormalizeUrl(NormalizeUrl(url, parses).value, true) == NormalizeUrl(url, parses)
  {
    var t := NormalizeUrl(url, parses).value;
    assert t[0] == 'h';
    assert Trim(t) != [] by {
      assert !IsSpace(t[0]);
    }
  }

  /** Before the `/ebooks/` of a book page address there is no other `/ebooks/`. */
  lemma {:induction false} NoEarlierEbooks(u: string, n: string, i: nat)
    requires u == SitePrefix + "ebooks/" + n && i <= 25
    ensures EbookNumberFrom(u, i) == EbookNumberFrom(u, 25)
    decreases 25 - i
  {
    if i < 25 {
      assert u[i..i + 8] != "/ebooks/" by {
        assert u[i] == SitePrefix[i] && u[i + 1] == SitePrefix[i + 1];
      }
      NoEarlierEbooks(u, n, i + 1);
    }
  }

  /** An address ending in a digit does not end in `.txt`. */
  lemma EndsInDigitNotDirect(u: string)
    requires u != [] && IsDigit(u[|u| - 1])
    ensures !IsDirectTextUrl(u)
  {
  }

  lemma EbookNumberOfPage(n: string)
    requires IsNumber(n)
    ensures EbookNumber(SitePrefix + "ebooks/" + n) == Some(n)
  {
    var u := SitePrefix + "ebooks/" + n;
    assert u[25..33] == "/ebooks/" && u[33..] == n;
    assert forall k | 33 <= k < |u| :: IsDigit(u[k]) by {
      assert forall k | 33 <= k < |u| :: u[k] == n[k - 33];
    }
    assert DigitsEnd(u, 33) == |u|;
    assert IsDigit(u[33]) && u[33..|u|] == n;
    assert EbookNumberFrom(u, 25) == Some(n);
    NoEarlierEbooks(u, n, 0);
  }

  /** An accepted address that is not a direct text address is turned into its book's text address. */
  lemma NormalizedFromNumber(u: string, n: string)
    requires Trim(u) != [] && StartsWith(u, SitePrefix) && !IsDirectTextUrl(u) && EbookNumber(u) == Some(n)
    ensures NormalizeUrl(u, true) == Ok(TextUrlFor(n))
  {
    var r := NormalizeUrl(u, true);
    assert r.Ok?;
  }

  /** A book page address `/ebooks/N` becomes the address of book `N`'s text file. */
  lemma EbookPageNormalized(u: string, n: string)
    requires IsNumber(n) && u == SitePrefix + "ebooks/" + n
    ensures NormalizeUrl(u, true) == Ok(TextUrlFor(n))
  {
    assert Trim(u) != [] by { assert !IsSpace(u[0]); }
    assert u[|u| - 1] == n[|n| - 1];
    EndsInDigitNotDirect(u);
    EbookNumberOfPage(n);
    assert StartsWith(u, SitePrefix);
    NormalizedFromNumber(u, n);
  }

  /** `String.replace` with a string pattern: the first occurrence replaced, if any. */
  function ReplaceFirst(s: string, pat: string, replacement: string): (r: string)
    ensures StartsWith(s, pat) ==> r == replacement + s[|pat|..]
    ensures !Contains(s, pat) ==> r == s
  {
    match IndexOf(s, pat)
    case None => s
    case Some(i) =>
      assert StartsWith(s, pat) ==> i == 0 by {
        if StartsWith(s, pat) { assert OccursAt(s, pat, 0); }
      }
      s[..i] + replacement + s[i + |pat|..]
  }

  /** The path the page fetches: the site's origin replaced by the development proxy's path. */
  function FetchPath(textUrl: string): (r: string)
    ensures StartsWith(textUrl, SitePrefix) ==> r == ProxyPath + textUrl[|Site|..]
  {
    assert StartsWith(textUrl, SitePrefix) ==> StartsWith(textUrl, Site) by {
      assert SitePrefix[..|Site|] == Site;
    }
    ReplaceFirst(textUrl, Site, ProxyPath)
  }
}
