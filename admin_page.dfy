/**
 * The admin page's state and its two actions. Submitting an address normalises it, fetches the
 * text file and reads its metadata, flagging a book already in the list; processing sends the
 * cleaned text to the paragraph-splitting service, saves the book and then its paragraphs in
 * batches, and reloads the list. What each network call answers is an input of the action;
 * what the page sends is part of the action's result.
 */
module AdminPage {
  import opened Wrappers
  import opened Text
  import opened BookMetadata
  import opened GutenbergUrl
  import opened Ingestion
  import Views

  /** The toast the action ends with. */
  datatype Notice = ErrorNotice(message: string) | WarningNotice(message: string) | SuccessNotice(message: string)

  /** What the fetch of the text file gave: a response, or a rejection with its error's message. */
  datatype TextFetch = TextResponse(status: nat, statusText: string, body: string) | TextRejected(message: string)

  /** What the paragraph-splitting service gave: a rejection, or a finish reason and a reply. */
  datatype Completion = CompletionRejected(message: string) | Completed(finishReason: string, reply: Reply)

  /** What the book POST gave: a rejection, or a status, the body as text and as JSON, and the new id. */
  datatype BookSave = SaveRejected(message: string) | SaveAnswered(status: nat, errorText: string, parsed: ErrorJson, id: string)

  /** A paragraph POST that rejects: its index in the list and its error's message. */
  datatype ParagraphFailure = ParagraphFailure(index: nat, message: string)

  datatype ProcessedBook = ProcessedBook(metadata: Metadata, paragraphs: seq<string>)

  const NoMetadata: string := "Book fetched but could not extract all metadata"

  /** The book text a submission obtains, or the message it fails with. */
  function FetchOutcome(fetched: TextFetch): (r: Result<string, string>)
    ensures r.Ok? <==> fetched.TextResponse? && IsOk(fetched.status) && Utf16Length(fetched.body) >= 100
    ensures r.Ok? ==> r.value == fetched.body && Utf16Length(r.value) >= 100
  {
    match fetched
    case TextRejected(message) => Err(message)
    case TextResponse(status, statusText, body) => FetchedText(status, statusText, body)
  }

  /** The toast after metadata was read: a warning when the book is already listed. */
  function FetchedNotice(m: Metadata, existing: Option<BookRecord>): Notice {
    if existing.Some? then WarningNotice("Book \"" + m.title + "\" by " + m.author + " already exists in the database!")
    else SuccessNotice("Book \"" + m.title + "\" by " + m.author + " fetched successfully!")
  }

  /** The paragraphs an answer of the splitting service yields, or the message processing fails with. */
  function CompletionOutcome(c: Completion): Result<seq<string>, string> {
    match c
    case CompletionRejected(message) => Err(message)
    case Completed(finishReason, reply) => AcceptReply(finishReason, reply)
  }

  /** The id of the saved book, or the message processing fails with. */
  function SaveOutcome(s: BookSave): Result<string, string> {
    match s
    case SaveRejected(message) => Err(message)
    case SaveAnswered(status, errorText, parsed, id) =>
      if IsOk(status) then Ok(id) else Err(SaveBookError(status, errorText, parsed))
  }

  function Processed(n: nat): string {
    "Book processed and saved! " + NatToString(n) + " paragraphs saved to database."
  }

  class Page {
    /** The address in the input field. */
    var url: string
    /** The text of the last book fetched. */
    var bookData: Option<string>
    var bookMetadata: Option<Metadata>
    /** The listed book the fetched one duplicates, if any. */
    var existingBook: Option<BookRecord>
    var existingBooks: seq<BookRecord>
    var processedBook: Option<ProcessedBook>

    /** Metadata is only ever set together with a book's text, and a duplicate only with metadata. */
    predicate Valid()
      reads this
    {
      && (bookMetadata.Some? ==> bookData.Some? && Utf16Length(bookData.value) >= 100)
      && (existingBook.Some? ==> bookMetadata.Some?)
    }

    /** The page as mounted: the list is the books loaded, or empty when loading failed. */
    constructor (loaded: Option<seq<BookRecord>>)
      ensures Valid()
      ensures url == "" && bookData == None && bookMetadata == None && existingBook == None && processedBook == None
      ensures existingBooks == if loaded.Some? then loaded.value else []
    {
      url := "";
      bookData := None;
      bookMetadata := None;
      existingBook := None;
      existingBooks := if loaded.Some? then loaded.value else [];
      processedBook := None;
    }

    /**
     * `handleSubmit`. `parses` says whether the `URL` constructor accepts the address and
     * `fetched` is what fetching the text file gave; `fetchPath` is the path fetched, if any.
     * When no metadata can be read the new text is kept but the previous book's metadata and
     * duplicate flag stay as they were.
     */
    method Submit(parses: bool, fetched: TextFetch) returns (notice: Notice, fetchPath: Option<string>)
      requires Valid()
      modifies this
      ensures Valid()
      ensures existingBooks == old(existingBooks)
      ensures NormalizeUrl(old(url), parses).Err? ==>
                notice == ErrorNotice(NormalizeUrl(old(url), parses).error) && fetchPath == None && unchanged(this)
      ensures NormalizeUrl(old(url), parses).Ok? ==>
                var textUrl := NormalizeUrl(old(url), parses).value;
                && fetchPath == Some(FetchPath(textUrl))
                && (FetchOutcome(fetched).Err? ==> notice == ErrorNotice(FetchOutcome(fetched).error) && unchanged(this))
                && (FetchOutcome(fetched).Ok? ==>
                      var text := FetchOutcome(fetched).value;
                      && bookData == Some(text) && processedBook == None && url == ""
                      && (ExtractBookMetadata(text, textUrl).None? ==>
                            notice == WarningNotice(NoMetadata)
                            && bookMetadata == old(bookMetadata) && existingBook == old(existingBook))
                      && (ExtractBookMetadata(text, textUrl).Some? ==>
                            var m := ExtractBookMetadata(text, textUrl).value;
                            && bookMetadata == Some(m) && existingBook == FindExisting(old(existingBooks), textUrl, m)
                            && notice == FetchedNotice(m, existingBook)))
    {
      var normalized := NormalizeUrl(url, parses);
      if normalized.Err? {
        return ErrorNotice(normalized.error), None;
      }
      var textUrl := normalized.value;
      fetchPath := Some(FetchPath(textUrl));
      var outcome := FetchOutcome(fetched);
      if outcome.Err? {
        return ErrorNotice(outcome.error), fetchPath;
      }
      var bookText := outcome.value;
      notice := Load(bookText, textUrl, ExtractBookMetadata(bookText, textUrl));
    }

    /**
     * The state changes of a submission that obtained `bookText` from `textUrl`, given what
     * the metadata reader made of it.
     */
    method Load(bookText: string, textUrl: string, metadata: Option<Metadata>) returns (notice: Notice)
      requires Valid() && Utf16Length(bookText) >= 100
      modifies this
      ensures Valid()
      ensures existingBooks == old(existingBooks)
      ensures bookData == Some(bookText) && processedBook == None && url == ""
      ensures metadata.None? ==>
                notice == WarningNotice(NoMetadata) && bookMetadata == old(bookMetadata) && existingBook == old(existingBook)
      ensures metadata.Some? ==>
                && bookMetadata == metadata && existingBook == FindExisting(old(existingBooks), textUrl, metadata.value)
                && notice == FetchedNotice(metadata.value, existingBook)
    {
      if metadata.Some? {
        bookMetadata := metadata;
        existingBook := FindExisting(existingBooks, textUrl, metadata.value);
        notice := FetchedNotice(metadata.value, existingBook);
      } else {
        notice := WarningNotice(NoMetadata);
      }
      bookData := Some(bookText);
      processedBook := None;
      url := "";
    }

    /**
     * `processBookWithGemini`. The inputs are the API key and what each call answers; the
     * results are the toast, the text sent for splitting, the book POSTed and the paragraph
     * POSTs started. A failure at any step ends the action with its message and changes nothing;
     * paragraphs saved before a failed batch stay saved.
     */
    method Process(apiKey: Option<string>, completion: Completion, bookSave: BookSave,
                   failure: Option<ParagraphFailure>, reloaded: Option<seq<BookRecord>>)
      returns (notice: Notice, sentText: Option<string>, bookPost: Option<Views.BookBody>, paragraphPosts: seq<Views.ParagraphBody>)
      requires Valid()
      modifies this
      ensures Valid()
      ensures url == old(url) && bookData == old(bookData) && bookMetadata == old(bookMetadata) && existingBook == old(existingBook)
      ensures var guard := ProcessGuard(bookData, bookMetadata, existingBook, apiKey);
              guard.Fail? ==>
                && notice == ErrorNotice(guard.error) && sentText == None && bookPost == None && paragraphPosts == []
                && processedBook == old(processedBook) && existingBooks == old(existingBooks)
      ensures var guard := ProcessGuard(bookData, bookMetadata, existingBook, apiKey);
              var accepted := CompletionOutcome(completion);
              guard.Pass? ==>
                && sentText == Some(Stripped(bookData.value))
                && (accepted.Err? ==>
                      && notice == ErrorNotice(accepted.error) && bookPost == None && paragraphPosts == []
                      && processedBook == old(processedBook) && existingBooks == old(existingBooks))
                && (accepted.Ok? ==> bookPost == Some(BookRequest(bookMetadata.value)))
      ensures var guard := ProcessGuard(bookData, bookMetadata, existingBook, apiKey);
              var accepted := CompletionOutcome(completion);
              var saved := SaveOutcome(bookSave);
              guard.Pass? && accepted.Ok? && saved.Err? ==>
                && notice == ErrorNotice(saved.error) && paragraphPosts == []
                && processedBook == old(processedBook) && existingBooks == old(existingBooks)
      ensures var guard := ProcessGuard(bookData, bookMetadata, existingBook, apiKey);
              var accepted := CompletionOutcome(completion);
              var saved := SaveOutcome(bookSave);
              guard.Pass? && accepted.Ok? && saved.Ok? ==>
                Saved(saved.value, accepted.value, failure, reloaded, old(processedBook), old(existingBooks), notice, paragraphPosts)
    {
      sentText, bookPost, paragraphPosts := None, None, [];
      var guard := ProcessGuard(bookData, bookMetadata, existingBook, apiKey);
      if guard.Fail? {
        notice := ErrorNotice(guard.error);
        return;
      }
      var cleaned := StripBoilerplate(bookData.value);
      sentText := Some(cleaned);
      var accepted := CompletionOutcome(completion);
      if accepted.Err? {
        notice := ErrorNotice(accepted.error);
        return;
      }
      bookPost := Some(BookRequest(bookMetadata.value));
      var saved := SaveOutcome(bookSave);
      if saved.Err? {
        notice := ErrorNotice(saved.error);
        return;
      }
      notice, paragraphPosts := SaveParagraphsAndFinish(saved.value, accepted.value, failure, reloaded);
    }

    /**
     * What the steps after the book was saved leave: with every paragraph POST started, the
     * processed book recorded, the list reloaded (kept when reloading fails) and the success
     * toast; when a batch fails, the error's message and nothing recorded.
     */
    ghost predicate Saved(bookId: string, paragraphs: seq<string>, failure: Option<ParagraphFailure>,
                          reloaded: Option<seq<BookRecord>>, processedBefore: Option<ProcessedBook>,
                          booksBefore: seq<BookRecord>, notice: Notice, posts: seq<Views.ParagraphBody>)
      reads this
    {
      && (failure.None? || failure.value.index >= |paragraphs| ==>
            && posts == Posts(bookId, paragraphs)
            && bookMetadata.Some? && processedBook == Some(ProcessedBook(bookMetadata.value, paragraphs))
            && existingBooks == (if reloaded.Some? then reloaded.value else booksBefore)
            && notice == SuccessNotice(Processed(|paragraphs|)))
      && (failure.Some? && failure.value.index < |paragraphs| ==>
            && |posts| == Min((failure.value.index / BatchSize + 1) * BatchSize, |paragraphs|)
            && posts == Posts(bookId, paragraphs[..|posts|])
            && notice == ErrorNotice(failure.value.message)
            && processedBook == processedBefore && existingBooks == booksBefore)
    }

    method SaveParagraphsAndFinish(bookId: string, paragraphs: seq<string>, failure: Option<ParagraphFailure>,
                                   reloaded: Option<seq<BookRecord>>)
      returns (notice: Notice, posts: seq<Views.ParagraphBody>)
      requires Valid() && bookMetadata.Some?
      modifies this
      ensures Valid()
      ensures url == old(url) && bookData == old(bookData) && bookMetadata == old(bookMetadata) && existingBook == old(existingBook)
      ensures Saved(bookId, paragraphs, failure, reloaded, old(processedBook), old(existingBooks), notice, posts)
    {
      var throwsAt := if failure.Some? then Some(failure.value.index) else None;
      var batches, savedCount, thrown;
      batches, posts, savedCount, thrown := SaveParagraphs(bookId, paragraphs, throwsAt);
      if thrown {
        notice := ErrorNotice(failure.value.message);
        return;
      }
      assert paragraphs[..|posts|] == paragraphs;
      processedBook := Some(ProcessedBook(bookMetadata.value, paragraphs));
      if reloaded.Some? {
        existingBooks := reloaded.value;
      }
      notice := SuccessNotice(Processed(|paragraphs|));
    }
  }
}
