/**
 * The admin page's steps between fetching a book's text and storing it: the checks on the
 * fetched text, the duplicate search among the books already stored, the guard before
 * processing, the removal of the Project Gutenberg header and footer, the checks on the
 * paragraph-splitting reply, the book request and its error message, and the batched saving of
 * the paragraphs. Network answers are inputs.
 */
module Ingestion {
  import opened Wrappers
  import opened Text
  import opened BookMetadata
  import ReleaseDate
  import Models
  import Views

  /** A book as the backend's book list returns it, with the fields the page reads. */
  datatype BookRecord = BookRecord(id: string, title: string, author: string, source: string)

  /** `response.ok`. */
  predicate IsOk(status: int) { 200 <= status <= 299 }

  const EmptyContent: string := "Received invalid or empty book content"

  /**
   * The checks on the answer to the text request: a failed status gives `Failed to fetch book:`
   * with the status and its text; a body shorter than 100 UTF-16 code units is refused.
   */
  function FetchedText(status: nat, statusText: string, bookText: string): (r: Result<string, string>)
    ensures !IsOk(status) ==> r == Err("Failed to fetch book: " + NatToString(status) + " " + statusText)
    ensures IsOk(status) && Utf16Length(bookText) < 100 ==> r == Err(EmptyContent)
    ensures r.Ok? <==> IsOk(status) && Utf16Length(bookText) >= 100
    ensures r.Ok? ==> r.value == bookText
  {
    if !IsOk(status) then Err("Failed to fetch book: " + NatToString(status) + " " + statusText)
    else if Utf16Length(bookText) < 100 then Err(EmptyContent)
    else Ok(bookText)
  }

  /** The duplicate test: the same source address, or the same title and author ignoring case. */
  predicate SameBook(b: BookRecord, textUrl: string, m: Metadata) {
    b.source == textUrl || (ToLower(b.title) == ToLower(m.title) && ToLower(b.author) == ToLower(m.author))
  }

  /** The index `existingBooks.find(...)` stops at, scanning from index `from` on. */
  function FindFrom(books: seq<BookRecord>, textUrl: string, m: Metadata, from: nat): (r: Option<nat>)
    requires from <= |books|
    decreases |books| - from
    ensures r.Some? ==> from <= r.value < |books| && SameBook(books[r.value], textUrl, m)
    ensures r.Some? ==> forall j | from <= j < r.value :: !SameBook(books[j], textUrl, m)
    ensures r.None? ==> forall j | from <= j < |books| :: !SameBook(books[j], textUrl, m)
  {
    if from == |books| then None
    else if SameBook(books[from], textUrl, m) then Some(from)
    else FindFrom(books, textUrl, m, from + 1)
  }

  /** `existingBooks.find(...)`: the first stored book the fetched one duplicates. */
  function FindExisting(books: seq<BookRecord>, textUrl: string, m: Metadata): (r: Option<BookRecord>)
    ensures r.Some? <==> exists i | 0 <= i < |books| :: SameBook(books[i], textUrl, m)
    ensures r.Some? ==> exists i | 0 <= i < |books| ::
              books[i] == r.value && SameBook(books[i], textUrl, m)
              && forall j | 0 <= j < i :: !SameBook(books[j], textUrl, m)
  {
    match FindFrom(books, textUrl, m, 0)
    case None => None
    case Some(i) => Some(books[i])
  }

  /**
   * Every book the backend would refuse as an exact duplicate is already flagged on the page,
   * when the page's list holds the stored books' titles and authors: the page's test ignores
   * case, the backend's does not.
   */
  lemma PageFlagsBackendDuplicates(stored: map<Models.Id, Models.Book>, listed: seq<BookRecord>, textUrl: string, m: Metadata)
    requires forall b | b in stored :: exists i | 0 <= i < |listed| ::
               listed[i].title == stored[b].title && listed[i].author == stored[b].author
    requires Views.HasDuplicate(stored, Some(m.title), Some(m.author), None)
    ensures FindExisting(listed, textUrl, m).Some?
  {
    var b :| b in stored && Some(m.title) == Some(stored[b].title) && Some(m.author) == Some(stored[b].author);
    var i :| 0 <= i < |listed| && listed[i].title == stored[b].title && listed[i].author == stored[b].author;
    assert SameBook(listed[i], textUrl, m);
  }

  const PlaceholderKey: string := "YOUR_OPENAI_API_KEY_HERE"
  const FetchFirst: string := "Please fetch a book first"
  const SetApiKey: string := "Please set your OpenAI API key in the .env file"

  function DuplicateRefusal(existing: BookRecord): string {
    "This book already exists in the database (ID: " + existing.id + "). Cannot add duplicate books."
  }

  /**
   * The checks before processing starts: a fetched text and its metadata, no flagged duplicate,
   * and an API key that is set and is not the placeholder. `Fail` carries the message shown.
   */
  function ProcessGuard(bookData: Option<string>, metadata: Option<Metadata>, existing: Option<BookRecord>, apiKey: Option<string>): (r: Outcome<string>)
    ensures r.Pass? <==> && bookData.Some? && bookData.value != [] && metadata.Some? && existing.None?
                         && apiKey.Some? && apiKey.value != [] && apiKey.value != PlaceholderKey
    ensures (bookData.None? || bookData.value == [] || metadata.None?) ==> r == Fail(FetchFirst)
    ensures bookData.Some? && bookData.value != [] && metadata.Some? && existing.Some? ==> r == Fail(DuplicateRefusal(existing.value))
  {
    if bookData.None? || bookData.value == [] || metadata.None? then Fail(FetchFirst)
    else if existing.Some? then Fail(DuplicateRefusal(existing.value))
    else if apiKey.None? || apiKey.value == [] || apiKey.value == PlaceholderKey then Fail(SetApiKey)
    else Pass
  }

  const StartGutenberg: string := "*** START OF THE PROJECT GUTENBERG EBOOK"
  const EndGutenberg: string := "*** END OF THE PROJECT GUTENBERG EBOOK"

  /** `s.substring(a, b)` for arguments within the string: the two are swapped when `a > b`. */
  function Substring(s: string, a: nat, b: nat): (r: string)
    requires a <= |s| && b <= |s|
    ensures a <= b ==> r == s[a..b]
    ensures b < a ==> r == s[b..a]
  {
    if a <= b then s[a..b] else s[b..a]
  }

  /** The first line feed of a slice is the first line feed of the string from the slice's start. */
  lemma FirstNewlineOfSlice(s: string, lo: nat, hi: nat)
    requires lo <= hi <= |s|
    ensures IndexOf(s[lo..hi], "\n").Some? <==> LineEnd(s, lo) < hi
    ensures IndexOf(s[lo..hi], "\n").Some? ==> LineEnd(s, lo) == lo + IndexOf(s[lo..hi], "\n").value
  {
    var t := s[lo..hi];
    var n := LineEnd(s, lo);
    if n < hi {
      assert OccursAt(t, "\n", n - lo) by { assert t[n - lo] == s[n]; }
      var k := IndexOf(t, "\n").value;
      assert t[k] == '\n' by { assert t[k..k + 1] == "\n"; }
      assert s[lo + k] == '\n';
    } else {
      forall j | 0 <= j <= |t| ensures !OccursAt(t, "\n", j) {
        if j + 1 <= |t| {
          assert t[j..j + 1][0] == s[lo + j] != "\n"[0];
        }
      }
      assert !Contains(t, "\n");
    }
  }

  /**
   * The text between two marker positions, taken in whichever order they come, less the line
   * up to and including the first line feed after the earlier one.
   */
  function StripBetween(t: string, s: nat, e: nat): string
    requires s <= |t| && e <= |t|
  {
    var lo := if s <= e then s else e;
    var hi := if s <= e then e else s;
    if LineEnd(t, lo) < hi then t[LineEnd(t, lo) + 1..hi] else t[lo..hi]
  }

  /**
   * The text with the header and footer removed: when both markers occur, the text between the
   * first START marker and the first END marker less the marker's own line; otherwise the text
   * unchanged.
   */
  function Stripped(bookData: string): string {
    match (IndexOf(bookData, StartGutenberg), IndexOf(bookData, EndGutenberg))
    case (Some(s), Some(e)) => StripBetween(bookData, s, e)
    case _ => bookData
  }

  /** The two substrings the processing step takes compute `StripBetween`. */
  lemma SubstringsStrip(t: string, s: nat, e: nat)
    requires s <= |t| && e <= |t|
    ensures var c := Substring(t, s, e);
            var newline := IndexOf(c, "\n");
            c[if newline.Some? then newline.value + 1 else 0..] == StripBetween(t, s, e)
  {
    var lo := if s <= e then s else e;
    var hi := if s <= e then e else s;
    var c := Substring(t, s, e);
    assert c == t[lo..hi];
    FirstNewlineOfSlice(t, lo, hi);
    var newline := IndexOf(c, "\n");
    if newline.Some? {
      assert LineEnd(t, lo) == lo + newline.value < hi;
      assert c[newline.value + 1..] == t[LineEnd(t, lo) + 1..hi];
    } else {
      assert hi <= LineEnd(t, lo);
    }
  }

  /** `cleanedText` as the processing step computes it, by two successive substrings. */
  method StripBoilerplate(bookData: string) returns (cleaned: string)
    ensures cleaned == Stripped(bookData)
  {
    cleaned := bookData;
    var startIndex := IndexOf(bookData, StartGutenberg);
    var endIndex := IndexOf(bookData, EndGutenberg);
    if startIndex.Some? && endIndex.Some? {
      var s, e := startIndex.value, endIndex.value;
      cleaned := Substring(bookData, s, e);
      SubstringsStrip(bookData, s, e);
      var newline := IndexOf(cleaned, "\n");
      cleaned := cleaned[if newline.Some? then newline.value + 1 else 0..];
    }
  }

  /** A stretch of `t` ending at `e` holds no occurrence of a pattern that first occurs at `e` or later. */
  lemma NoOccurrenceBefore(t: string, pat: string, a: nat, e: nat)
    requires a <= e <= |t| && pat != []
    requires forall j | 0 <= j < e :: !OccursAt(t, pat, j)
    ensures !Contains(t[a..e], pat)
  {
    var r := t[a..e];
    forall j | 0 <= j <= |r| ensures !OccursAt(r, pat, j) {
      if OccursAt(r, pat, j) {
        assert j + |pat| <= |r| && r[j..j + |pat|] == pat;
        assert forall k | 0 <= k < |pat| :: t[a + j + k] == r[j + k] == pat[k];
        assert t[a + j..a + j + |pat|] == pat;
        assert OccursAt(t, pat, a + j);
      }
    }
  }

  /**
   * When the START marker comes first, the cleaned text is a stretch of the book ending right
   * before the footer, and it holds no END marker.
   */
  lemma StrippedEndsBeforeFooter(bookData: string)
    requires IndexOf(bookData, StartGutenberg).Some? && IndexOf(bookData, EndGutenberg).Some?
    requires IndexOf(bookData, StartGutenberg).value <= IndexOf(bookData, EndGutenberg).value
    ensures exists a | 0 <= a <= IndexOf(bookData, EndGutenberg).value ::
              Stripped(bookData) == bookData[a..IndexOf(bookData, EndGutenberg).value]
    ensures !Contains(Stripped(bookData), EndGutenberg)
  {
    var s := IndexOf(bookData, StartGutenberg).value;
    var e := IndexOf(bookData, EndGutenberg).value;
    var a := if LineEnd(bookData, s) < e then LineEnd(bookData, s) + 1 else s;
    assert Stripped(bookData) == StripBetween(bookData, s, e) == bookData[a..e];
    NoOccurrenceBefore(bookData, EndGutenberg, a, e);
  }

  /** What the paragraph-splitting service answered. */
  datatype Reply =
    | ParagraphList(paragraphs: seq<string>)
    | NoParagraphList
    | Unreadable(message: string)

  const Truncated: string := "OpenAI response was truncated due to token limit. Try processing a shorter book or splitting it into sections."
  const MissingParagraphs: string := "Invalid response format from OpenAI - missing paragraphs array"

  /**
   * The checks on the completion: a reply cut off at the token limit is refused before it is
   * read; then a reply that could not be read, or that has no `paragraphs` array, is refused.
   */
  function AcceptReply(finishReason: string, reply: Reply): (r: Result<seq<string>, string>)
    ensures finishReason == "length" ==> r == Err(Truncated)
    ensures r.Ok? <==> finishReason != "length" && reply.ParagraphList?
    ensures r.Ok? ==> r.value == reply.paragraphs
    ensures finishReason != "length" && reply == NoParagraphList ==> r == Err(MissingParagraphs)
  {
    if finishReason == "length" then Err(Truncated)
    else match reply
      case Unreadable(message) => Err(message)
      case NoParagraphList => Err(MissingParagraphs)
      case ParagraphList(ps) => Ok(ps)
  }

  /**
   * The book request body: the metadata, and the release date converted to `YYYY-MM-DD` (a
   * month naming an inherited object member gives that member's rendering instead).
   */
  function BookRequest(m: Metadata): (r: Views.BookBody)
    ensures r.title == Some(m.title) && r.author == Some(m.author) && r.language == Some(m.language)
    ensures r.source == Some(m.sourceUrl)
    ensures r.publishedDate == Some(ReleaseDate.PublishedDate(m.releaseDate))
    ensures ReleaseDate.OrdinaryMonth(m.releaseDate) ==> ReleaseDate.IsIsoShaped(r.publishedDate.value)
  {
    Views.BookBody(Some(m.title), Some(m.author), Some(ReleaseDate.PublishedDate(m.releaseDate)),
      Some(m.language), Some(m.sourceUrl))
  }

  /** How the failed book request's body read: not JSON, or JSON with or without an `error` field. */
  datatype ErrorJson = NotJson | Json(error: Option<string>)

  /**
   * The message of a failed book request: the body's `error` field when it is set; the raw body
   * when it is not JSON and not empty; otherwise `Failed to save book:` and the status.
   */
  function SaveBookError(status: nat, errorText: string, parsed: ErrorJson): (r: string)
    ensures r != []
    ensures parsed.Json? && parsed.error.Some? && parsed.error.value != [] ==> r == parsed.error.value
    ensures parsed == NotJson && errorText != [] ==> r == errorText
    ensures (parsed.Json? && (parsed.error.None? || parsed.error.value == [])) || (parsed == NotJson && errorText == []) ==>
              r == "Failed to save book: " + NatToString(status)
  {
    var fallback := "Failed to save book: " + NatToString(status);
    match parsed
    case Json(e) => if e.Some? && e.value != [] then e.value else fallback
    case NotJson => if errorText != [] then errorText else fallback
  }

  /** The backend's refusal of a duplicate book reaches the admin as its own message. */
  lemma DuplicateBookMessage()
    ensures SaveBookError(400, "{\"error\": \"Book with same title and author already exists\"}",
              Json(Some("Book with same title and author already exists")))
            == "Book with same title and author already exists"
  {
  }

  const BatchSize: nat := 10

  /** The paragraph requests for `paragraphs`, in order. */
  function Posts(bookId: string, paragraphs: seq<string>): (r: seq<Views.ParagraphBody>)
    ensures |r| == |paragraphs|
    ensures forall k | 0 <= k < |r| :: r[k] == Views.ParagraphBody(Some(bookId), Some(paragraphs[k]))
  {
    seq(|paragraphs|, k requires 0 <= k < |paragraphs| => Views.ParagraphBody(Some(bookId), Some(paragraphs[k])))
  }

  function Flatten(batches: seq<seq<string>>): seq<string> {
    if batches == [] then [] else Flatten(batches[..|batches| - 1]) + batches[|batches| - 1]
  }

  function Min(a: int, b: int): int { if a <= b then a else b }

  lemma PostsAppend(bookId: string, a: seq<string>, b: seq<string>)
    ensures Posts(bookId, a + b) == Posts(bookId, a) + Posts(bookId, b)
  {
  }

  lemma FlattenAppend(batches: seq<seq<string>>, batch: seq<string>)
    ensures Flatten(batches + [batch]) == Flatten(batches) + batch
  {
    assert (batches + [batch])[..|batches|] == batches;
  }

  /** `batches` are the first batches of `paragraphs`, of ten paragraphs each but the last. */
  ghost predicate Batched(paragraphs: seq<string>, batches: seq<seq<string>>) {
    forall k | 0 <= k < |batches| ::
      k * BatchSize < |paragraphs| && batches[k] == paragraphs[k * BatchSize..Min((k + 1) * BatchSize, |paragraphs|)]
  }

  lemma BatchedAppend(paragraphs: seq<string>, batches: seq<seq<string>>)
    requires Batched(paragraphs, batches) && |batches| * BatchSize < |paragraphs|
    ensures var i := |batches| * BatchSize;
            Batched(paragraphs, batches + [paragraphs[i..Min(i + BatchSize, |paragraphs|)]])
  {
    var i := |batches| * BatchSize;
    var next := batches + [paragraphs[i..Min(i + BatchSize, |paragraphs|)]];
    forall k | 0 <= k < |next|
      ensures k * BatchSize < |paragraphs| && next[k] == paragraphs[k * BatchSize..Min((k + 1) * BatchSize, |paragraphs|)]
    {
      if k < |batches| {
        assert next[k] == batches[k];
      }
    }
  }

  /** Every batch of a batched list holds one to ten paragraphs. */
  lemma BatchSizes(paragraphs: seq<string>, batches: seq<seq<string>>)
    requires Batched(paragraphs, batches)
    ensures forall k | 0 <= k < |batches| :: 1 <= |batches[k]| <= BatchSize
  {
    forall k | 0 <= k < |batches| ensures 1 <= |batches[k]| <= BatchSize {
      assert (k + 1) * BatchSize == k * BatchSize + BatchSize;
    }
  }

  /** The batch starting at `i`, a multiple of ten, is the one holding paragraph `t`. */
  lemma BatchOf(i: nat, t: nat)
    requires i % BatchSize == 0 && i <= t < i + BatchSize
    ensures i + BatchSize == (t / BatchSize + 1) * BatchSize
  {
    assert BatchSize == 10;
    var q := i / 10;
    assert i == 10 * q;
    assert t / 10 == q;
  }

  /**
   * Saving the paragraphs of book `bookId`, ten requests at a time. A request answered with a
   * failure status is only logged and still counted; `throwsAt` is the first paragraph whose
   * request throws, if any: its batch has been sent whole, the count misses it, and no further
   * batch is sent.
   */
  method SaveParagraphs(bookId: string, paragraphs: seq<string>, throwsAt: Option<nat>)
    returns (batches: seq<seq<string>>, posts: seq<Views.ParagraphBody>, savedCount: nat, thrown: bool)
    ensures |posts| <= |paragraphs| && posts == Posts(bookId, paragraphs[..|posts|])
    ensures Flatten(batches) == paragraphs[..|posts|]
    ensures Batched(paragraphs, batches)
    ensures forall k | 0 <= k < |batches| :: 1 <= |batches[k]| <= BatchSize
    ensures (throwsAt.None? || throwsAt.value >= |paragraphs|) ==>
              !thrown && |posts| == |paragraphs| && savedCount == |paragraphs|
    ensures throwsAt.Some? && throwsAt.value < |paragraphs| ==>
              thrown && |posts| == Min((throwsAt.value / BatchSize + 1) * BatchSize, |paragraphs|)
              && savedCount == |posts| - 1
  {
    batches, posts, savedCount, thrown := [], [], 0, false;
    var i := 0;
    while i < |paragraphs| && !thrown
      invariant i % BatchSize == 0 && |batches| * BatchSize == i && |posts| == Min(i, |paragraphs|)
      invariant posts == Posts(bookId, paragraphs[..|posts|])
      invariant Flatten(batches) == paragraphs[..|posts|]
      invariant Batched(paragraphs, batches)
      invariant !thrown ==> savedCount == |posts| && (throwsAt.None? || throwsAt.value >= |posts|)
      invariant thrown ==> throwsAt.Some? && throwsAt.value < |paragraphs| && i == (throwsAt.value / BatchSize + 1) * BatchSize
                           && savedCount == |posts| - 1
      decreases |paragraphs| - i
    {
      var end := Min(i + BatchSize, |paragraphs|);
      var batch := paragraphs[i..end];
      assert paragraphs[..end] == paragraphs[..i] + batch;
      FlattenAppend(batches, batch);
      PostsAppend(bookId, paragraphs[..i], batch);
      BatchedAppend(paragraphs, batches);
      batches := batches + [batch];
      posts := posts + Posts(bookId, batch);
      if throwsAt.Some? && i <= throwsAt.value < end {
        BatchOf(i, throwsAt.value);
        savedCount := savedCount + |batch| - 1;
        thrown := true;
      } else {
        savedCount := savedCount + |batch|;
      }
      i := i + BatchSize;
    }
    BatchSizes(paragraphs, batches);
  }
}
