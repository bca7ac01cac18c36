/**
 * The backend's request handlers over the four tables. Each view is split into one method per
 * HTTP method it answers. A `Response` carries the status and the decoded JSON body; an exception
 * the view does not catch (a missing key read with `data[...]`, a value the database refuses)
 * is the server's 500 answer, `ServerError`, and leaves the tables as they were.
 *
 * The fresh primary key `uuid.uuid4()` gives to a new row is a parameter, `newId`, promised not
 * to be in use.
 */
module Views {
  import opened Wrappers
  import opened Text
  import opened Reactions
  import opened Models
  import opened PyUuid

  datatype Verb = Get | Post | Put | Delete | OtherVerb

  /** The keys of a book request body; `None` when the key is absent. */
  datatype BookBody = BookBody(
    title: Option<string>,
    author: Option<string>,
    publishedDate: Option<string>,
    language: Option<string>,
    source: Option<string>)

  datatype ParagraphBody = ParagraphBody(bookId: Option<string>, content: Option<string>)

  /** An event request body: `user_id`, `paragraph_id` and the flag keys it carries. */
  datatype EventBody = EventBody(userId: Option<string>, paragraphId: Option<string>, patch: FlagPatch)

  /** How many events on a paragraph have each flag set. */
  datatype Stats = Stats(likes: nat, dislikes: nat, hearts: nat, bookmarks: nat)

  /** One element of the random-paragraphs answer. */
  datatype Entry = Entry(
    paragraphId: string,
    content: string,
    bookId: string,
    title: string,
    author: string,
    stats: Stats,
    userInteractions: Flags)

  datatype Body =
    | Message(message: string)
    | Error(error: string)
    | Created(id: string, message: string)
    | BookFields(id: string, book: Book)
    | ParagraphFields(id: string, bookId: string, content: string)
    | UserFields(id: string, identifier: string)
    | EventFields(id: string, userId: string, paragraphId: string, flags: Flags)
    | EventSaved(id: string, message: string, flags: Flags)
    | Interaction(eventId: Option<string>, userId: string, paragraphId: string, flags: Flags)
    | RandomList(entries: seq<Entry>)
    | InternalError

  datatype Response = Response(status: int, body: Body)

  const ServerError: Response := Response(500, InternalError)

  /** How the event views report the `ValueError` a malformed UUID string raises. */
  function InvalidData(message: string): string { "Invalid data: " + message }

  /**
   * The duplicate pre-check `filter(title=…, author=…).exclude(id=…)`: another book with exactly
   * this title and author. An absent key filters on `None`, which no row matches.
   */
  predicate HasDuplicate(books: map<Id, Book>, title: Option<string>, author: Option<string>, except: Option<Id>) {
    exists b | b in books :: Some(b) != except && title == Some(books[b].title) && author == Some(books[b].author)
  }

  /** What the duplicate pre-checks keep true when every write goes through the views. */
  predicate DistinctBooks(books: map<Id, Book>) {
    forall a, b | a in books && b in books && books[a].title == books[b].title && books[a].author == books[b].author :: a == b
  }

  /** The book `objects.create` builds from a body, when it carries every key. */
  function NewBook(body: BookBody): (r: Option<Book>)
    ensures r.Some? <==> body.title.Some? && body.author.Some? && body.publishedDate.Some? && body.language.Some? && body.source.Some?
    ensures r.Some? ==> Some(r.value.title) == body.title && Some(r.value.author) == body.author
  {
    if body.title.Some? && body.author.Some? && body.publishedDate.Some? && body.language.Some? && body.source.Some? then
      Some(Book(body.title.value, body.author.value, body.publishedDate.value, body.language.value, body.source.value))
    else None
  }

  /** The PUT update of a book: each key the body carries replaces its field; the others stay. */
  function UpdatedBook(b: Book, body: BookBody): (r: Book)
    ensures body.title.None? ==> r.title == b.title
    ensures body.title.Some? ==> r.title == body.title.value
    ensures body.author.None? ==> r.author == b.author
    ensures body.author.Some? ==> r.author == body.author.value
    ensures body.publishedDate.None? ==> r.publishedDate == b.publishedDate
    ensures body.publishedDate.Some? ==> r.publishedDate == body.publishedDate.value
    ensures body.language.None? ==> r.language == b.language
    ensures body.language.Some? ==> r.language == body.language.value
    ensures body.source.None? ==> r.source == b.source
    ensures body.source.Some? ==> r.source == body.source.value
  {
    Book(body.title.GetOr(b.title), body.author.GetOr(b.author), body.publishedDate.GetOr(b.publishedDate),
      body.language.GetOr(b.language), body.source.GetOr(b.source))
  }

  /** `UserIdentifier.objects.get(identifier=…)`: the one user with that identifier, if any. */
  function UserWithIdentifier(users: map<Id, UserIdentifier>, identifier: string): (r: Option<Id>)
    requires UniqueIdentifiers(users)
    ensures r.Some? ==> r.value in users && users[r.value].identifier == identifier
    ensures r.None? ==> forall u | u in users :: users[u].identifier != identifier
  {
    if exists u | u in users :: users[u].identifier == identifier then
      var u :| u in users && users[u].identifier == identifier;
      Some(u)
    else None
  }

  /** `Event.objects.get(user=…, paragraph=…)`: the one event of the pair, if any. */
  function EventFor(events: map<Id, Event>, user: Id, paragraph: Id): (r: Option<Id>)
    requires OneEventPerPair(events)
    ensures r.Some? ==> r.value in events && events[r.value].user == user && events[r.value].paragraph == paragraph
    ensures r.None? ==> forall e | e in events :: events[e].user != user || events[e].paragraph != paragraph
  {
    if exists e | e in events :: events[e].user == user && events[e].paragraph == paragraph then
      var e :| e in events && events[e].user == user && events[e].paragraph == paragraph;
      Some(e)
    else None
  }

  /** The lookup of a pair finds the event that holds it. */
  lemma EventForFinds(events: map<Id, Event>, e: Id)
    requires OneEventPerPair(events) && e in events
    ensures EventFor(events, events[e].user, events[e].paragraph) == Some(e)
  {
  }

  /**
   * The lookups both event views make inside one `try`: the user by identifier, then the
   * paragraph by its parsed id. A missing key is the `KeyError` answer and a malformed id the
   * `ValueError` answer, both 400; an unknown user or paragraph is a 404.
   */
  function EventTarget(t: Tables, userId: Option<string>, paragraphId: Option<string>): (r: Result<(Id, Id), Response>)
    requires UniqueIdentifiers(t.users)
    ensures userId.None? ==> r == Err(Response(400, Error("Invalid data: 'user_id'")))
    ensures userId.Some? && UserWithIdentifier(t.users, userId.value).None? ==>
              r == Err(Response(404, Error("UserIdentifier not found")))
    ensures userId.Some? && UserWithIdentifier(t.users, userId.value).Some? ==>
              && (paragraphId.None? ==> r == Err(Response(400, Error("Invalid data: 'paragraph_id'"))))
              && (paragraphId.Some? && ParseUuid(paragraphId.value).Err? ==>
                    r == Err(Response(400, Error(InvalidData(ParseUuid(paragraphId.value).error)))))
              && ((paragraphId.Some? && ParseUuid(paragraphId.value).Ok?
                   && ParseUuid(paragraphId.value).value !in t.paragraphs) ==> r == Err(Response(404, Error("Paragraph not found"))))
    ensures r.Ok? ==>
              && userId.Some? && paragraphId.Some?
              && r.value.0 in t.users && t.users[r.value.0].identifier == userId.value
              && r.value.1 in t.paragraphs && ParseUuid(paragraphId.value) == Ok(r.value.1)
    ensures r.Err? ==> r.error.status == 400 || r.error.status == 404
  {
    if userId.None? then Err(Response(400, Error("Invalid data: 'user_id'")))
    else
      var user := UserWithIdentifier(t.users, userId.value);
      if user.None? then Err(Response(404, Error("UserIdentifier not found")))
      else if paragraphId.None? then Err(Response(400, Error("Invalid data: 'paragraph_id'")))
      else
        var key := ParseUuid(paragraphId.value);
        if key.Err? then Err(Response(400, Error(InvalidData(key.error))))
        else if key.value !in t.paragraphs then Err(Response(404, Error("Paragraph not found")))
        else Ok((user.value, key.value))
  }

  /**
   * The field-by-field flag assignment of the event views: each flag key present in the body
   * overwrites its flag.
   */
  method AssignFlags(f: Flags, patch: FlagPatch) returns (g: Flags)
    ensures g == Apply(f, patch)
  {
    g := f;
    if patch.liked.Some? {
      g := g.(liked := patch.liked.value);
    }
    assert g == Flags(patch.liked.GetOr(f.liked), f.disliked, f.hearted, f.bookmarked);
    if patch.disliked.Some? {
      g := g.(disliked := patch.disliked.value);
    }
    assert g == Flags(patch.liked.GetOr(f.liked), patch.disliked.GetOr(f.disliked), f.hearted, f.bookmarked);
    if patch.hearted.Some? {
      g := g.(hearted := patch.hearted.value);
    }
    assert g == Flags(patch.liked.GetOr(f.liked), patch.disliked.GetOr(f.disliked), patch.hearted.GetOr(f.hearted), f.bookmarked);
    if patch.bookmarked.Some? {
      g := g.(bookmarked := patch.bookmarked.value);
    }
  }

  datatype Counter = Likes | Dislikes | Hearts | Bookmarks

  function Counted(f: Flags, c: Counter): bool {
    match c
    case Likes => f.liked
    case Dislikes => f.disliked
    case Hearts => f.hearted
    case Bookmarks => f.bookmarked
  }

  /** `Event.objects.filter(paragraph=p, is_liked=True).count()` and its three siblings. */
  function CountOf(events: map<Id, Event>, p: Id, c: Counter): nat {
    |set e | e in events && events[e].paragraph == p && Counted(events[e].flags, c)|
  }

  /** The `user_id` query parameter names user `u`: it is given, non-empty and `u`'s identifier. */
  predicate NamedBy(users: map<Id, UserIdentifier>, who: Option<string>, u: Id) {
    who.Some? && who.value != "" && Identifies(users, who.value, u)
  }

  /** `u` is the user whose identifier is `name`. */
  predicate Identifies(users: map<Id, UserIdentifier>, name: string, u: Id) {
    u in users && users[u].identifier == name
  }

  /** `random.sample(keys, n)`: `n` distinct elements of `keys`. */
  predicate IsSample(s: seq<Id>, keys: set<Id>, n: nat) {
    && |s| == n
    && (forall i | 0 <= i < |s| :: s[i] in keys)
    && (forall i, j | 0 <= i < j < |s| :: s[i] != s[j])
  }

  /** There is a sample of every size up to the number of keys. */
  lemma {:induction false} SampleExists(keys: set<Id>, n: nat) returns (s: seq<Id>)
    requires n <= |keys|
    ensures IsSample(s, keys, n)
  {
    if n == 0 {
      s := [];
    } else {
      var k :| k in keys;
      var rest := SampleExists(keys - {k}, n - 1);
      s := [k] + rest;
    }
  }

  /** One answer element for paragraph `p`, built as the loop body of the view builds it. */
  function EntryFor(t: Tables, user: Option<Id>, p: Id): (r: Entry)
    requires Consistent(t) && p in t.paragraphs
    requires user.Some? ==> user.value in t.users
    ensures r.paragraphId == p && r.content == t.paragraphs[p].content
    ensures r.bookId == t.paragraphs[p].book
    ensures r.title == t.books[t.paragraphs[p].book].title && r.author == t.books[t.paragraphs[p].book].author
    ensures r.stats == Stats(CountOf(t.events, p, Likes), CountOf(t.events, p, Dislikes),
                             CountOf(t.events, p, Hearts), CountOf(t.events, p, Bookmarks))
    ensures forall e | e in t.events && t.events[e].paragraph == p && Some(t.events[e].user) == user :: r.userInteractions == t.events[e].flags
    ensures (forall e | e in t.events && t.events[e].paragraph == p :: Some(t.events[e].user) != user) ==> r.userInteractions == NoFlags
  {
    var book := t.paragraphs[p].book;
    DehyphenateHyphenated(p);
    DehyphenateHyphenated(book);
    var interactions :=
      if user.None? then NoFlags
      else match EventFor(t.events, user.value, p)
        case Some(e) => t.events[e].flags
        case None => NoFlags;
    Entry(
      RemoveAll(Hyphenated(p), "-"),
      t.paragraphs[p].content,
      RemoveAll(Hyphenated(book), "-"),
      t.books[book].title,
      t.books[book].author,
      Stats(CountOf(t.events, p, Likes), CountOf(t.events, p, Dislikes), CountOf(t.events, p, Hearts), CountOf(t.events, p, Bookmarks)),
      interactions)
  }

  /**
   * What one element of the random-paragraphs answer says about the tables: its paragraph (by
   * the 32-digit key), that paragraph's content and book, the number of events on it with each
   * flag set, and the flags of the named user's event on it, all false when there is none.
   */
  predicate Describes(t: Tables, who: Option<string>, en: Entry)
    requires Consistent(t)
  {
    && en.paragraphId in t.paragraphs
    && IsId(en.paragraphId)
    && en.content == t.paragraphs[en.paragraphId].content
    && en.bookId == t.paragraphs[en.paragraphId].book
    && en.title == t.books[en.bookId].title
    && en.author == t.books[en.bookId].author
    && en.stats == Stats(CountOf(t.events, en.paragraphId, Likes), CountOf(t.events, en.paragraphId, Dislikes),
                         CountOf(t.events, en.paragraphId, Hearts), CountOf(t.events, en.paragraphId, Bookmarks))
    && (forall e | e in t.events && t.events[e].paragraph == en.paragraphId && NamedBy(t.users, who, t.events[e].user) ::
          en.userInteractions == t.events[e].flags)
    && ((forall e | e in t.events && t.events[e].paragraph == en.paragraphId :: !NamedBy(t.users, who, t.events[e].user)) ==>
          en.userInteractions == NoFlags)
  }

  /** The element the loop builds for a sampled paragraph describes it, for the user the query names. */
  lemma EntryForDescribes(t: Tables, who: Option<string>, user: Option<Id>, p: Id)
    requires Consistent(t) && p in t.paragraphs
    requires user.Some? ==> user.value in t.users
    requires forall u | NamedBy(t.users, who, u) :: user == Some(u)
    requires user.Some? ==> NamedBy(t.users, who, user.value)
    ensures EntryFor(t, user, p).paragraphId == p
    ensures Describes(t, who, EntryFor(t, user, p))
  {
  }

  /** `random.sample(keys, n)`: some `n` distinct keys, in some order. */
  method PickSample(keys: set<Id>, n: nat) returns (s: seq<Id>)
    requires n <= |keys|
    ensures IsSample(s, keys, n)
  {
    ghost var some := SampleExists(keys, n);
    s :| IsSample(s, keys, n);
  }

  /**
   * The loop of `get_random_paragraphs`: one element per sampled paragraph, in the sample's
   * order. `user` is the user the query names, when there is one.
   */
  method BuildEntries(t: Tables, who: Option<string>, user: Option<Id>, sample: seq<Id>) returns (entries: seq<Entry>)
    requires Consistent(t)
    requires forall k | 0 <= k < |sample| :: sample[k] in t.paragraphs
    requires forall u | NamedBy(t.users, who, u) :: user == Some(u)
    requires user.Some? ==> NamedBy(t.users, who, user.value)
    ensures |entries| == |sample|
    ensures forall k | 0 <= k < |sample| :: entries[k].paragraphId == sample[k]
    ensures forall k | 0 <= k < |sample| :: Describes(t, who, entries[k])
  {
    entries := [];
    var i := 0;
    while i < |sample|
      invariant 0 <= i <= |sample|
      invariant |entries| == i
      invariant forall k | 0 <= k < i :: entries[k].paragraphId == sample[k]
      invariant forall k | 0 <= k < i :: Describes(t, who, entries[k])
    {
      EntryForDescribes(t, who, user, sample[i]);
      entries := entries + [EntryFor(t, user, sample[i])];
      i := i + 1;
    }
  }

  class Store {
    var books: map<Id, Book>
    var paragraphs: map<Id, Paragraph>
    var users: map<Id, UserIdentifier>
    var events: map<Id, Event>

    function Snapshot(): Tables
      reads this
    {
      Tables(books, paragraphs, users, events)
    }

    ghost predicate Valid()
      reads this
    {
      Consistent(Snapshot()) && DistinctBooks(books)
    }

    constructor ()
      ensures Valid() && Snapshot() == Empty
    {
      books, paragraphs, users, events := map[], map[], map[], map[];
    }

    /**
     * `book_list`, POST: refused with 400 when a book with exactly this title and author exists;
     * a missing key or a value over its column bound is a 500; otherwise exactly one book is
     * added and its id returned with 201.
     */
    method BookListPost(body: BookBody, newId: Id) returns (r: Response)
      requires Valid() && IsId(newId) && newId !in books
      modifies this
      ensures Valid()
      ensures HasDuplicate(old(books), body.title, body.author, None) ==>
                r == Response(400, Error("Book with same title and author already exists"))
      ensures r.status == 201 <==>
                !HasDuplicate(old(books), body.title, body.author, None) && NewBook(body).Some? && BookFits(NewBook(body).value)
      ensures r.status == 201 ==> r.body == Created(Hyphenated(newId), "Book created successfully")
      ensures r.status == 201 ==> Snapshot() == old(Snapshot()).(books := old(books)[newId := NewBook(body).value])
      ensures r.status != 201 ==> Snapshot() == old(Snapshot())
      ensures !HasDuplicate(old(books), body.title, body.author, None) && r.status != 201 ==> r == ServerError
    {
      if HasDuplicate(books, body.title, body.author, None) {
        return Response(400, Error("Book with same title and author already exists"));
      }
      var book := NewBook(body);
      if book.None? || !BookFits(book.value) {
        return ServerError;
      }
      PutBook(newId, book.value);
      r := Response(201, Created(Hyphenated(newId), "Book created successfully"));
    }

    /** `book_detail`, GET: the book's fields, or 404 for an unknown id. */
    method BookDetailGet(id: Id) returns (r: Response)
      requires Valid() && IsId(id)
      ensures id !in books ==> r == Response(404, Error("Book not found"))
      ensures id in books ==> r == Response(200, BookFields(Hyphenated(id), books[id]))
    {
      if id !in books {
        return Response(404, Error("Book not found"));
      }
      r := Response(200, BookFields(Hyphenated(id), books[id]));
    }

    /**
     * `book_detail`, PUT: 404 for an unknown id; 400 and no change when another book already
     * has the resulting title and author; otherwise each field whose key the body carries is
     * replaced and the others keep their values.
     */
    method BookDetailPut(id: Id, body: BookBody) returns (r: Response)
      requires Valid() && IsId(id)
      modifies this
      ensures Valid()
      ensures id !in old(books) ==> r == Response(404, Error("Book not found")) && Snapshot() == old(Snapshot())
      ensures id in old(books) ==>
                var updated := UpdatedBook(old(books)[id], body);
                && (HasDuplicate(old(books), Some(updated.title), Some(updated.author), Some(id)) ==>
                      r == Response(400, Error("Another book with same title and author already exists")))
                && (r.status == 200 <==>
                      !HasDuplicate(old(books), Some(updated.title), Some(updated.author), Some(id)) && BookFits(updated))
                && (r.status == 200 ==>
                      r.body == Message("Book updated successfully")
                      && Snapshot() == old(Snapshot()).(books := old(books)[id := updated]))
      ensures r.status != 200 ==> Snapshot() == old(Snapshot())
    {
      if id !in books {
        return Response(404, Error("Book not found"));
      }
      var updated := UpdatedBook(books[id], body);
      if HasDuplicate(books, Some(updated.title), Some(updated.author), Some(id)) {
        return Response(400, Error("Another book with same title and author already exists"));
      }
      if !BookFits(updated) {
        return ServerError;
      }
      PutBook(id, updated);
      r := Response(200, Message("Book updated successfully"));
    }

    /** `book_detail`, DELETE: the book, its paragraphs and their events are removed. */
    method BookDetailDelete(id: Id) returns (r: Response)
      requires Valid() && IsId(id)
      modifies this
      ensures Valid()
      ensures id !in old(books) ==> r == Response(404, Error("Book not found")) && Snapshot() == old(Snapshot())
      ensures id in old(books) ==>
                r == Response(200, Message("Book deleted successfully")) && Snapshot() == DeleteBook(old(Snapshot()), id)
    {
      if id !in books {
        return Response(404, Error("Book not found"));
      }
      DeleteBookKeepsConsistent(Snapshot(), id);
      var t := DeleteBook(Snapshot(), id);
      books, paragraphs, users, events := t.books, t.paragraphs, t.users, t.events;
      r := Response(200, Message("Book deleted successfully"));
    }

    /**
     * `paragraph_list`, POST: a missing or malformed `book_id` or a missing `content` is a 500;
     * an unknown book is a 404 and adds nothing; otherwise exactly one paragraph is added.
     */
    method ParagraphListPost(body: ParagraphBody, newId: Id) returns (r: Response)
      requires Valid() && IsId(newId) && newId !in paragraphs
      modifies this
      ensures Valid()
      ensures body.bookId.None? || ParseUuid(body.bookId.value).Err? ==> r == ServerError
      ensures body.bookId.Some? && ParseUuid(body.bookId.value).Ok? && ParseUuid(body.bookId.value).value !in old(books) ==>
                r == Response(404, Error("Book not found"))
      ensures r.status == 201 <==>
                body.bookId.Some? && ParseUuid(body.bookId.value).Ok? && ParseUuid(body.bookId.value).value in old(books)
                && body.content.Some?
      ensures r.status == 201 ==>
                r.body == Created(Hyphenated(newId), "Paragraph created successfully")
                && Snapshot() == old(Snapshot()).(paragraphs := old(paragraphs)[newId := Paragraph(ParseUuid(body.bookId.value).value, body.content.value)])
      ensures r.status != 201 ==> Snapshot() == old(Snapshot())
    {
      if body.bookId.None? {
        return ServerError;
      }
      var key := ParseUuid(body.bookId.value);
      if key.Err? {
        return ServerError;
      }
      if key.value !in books {
        return Response(404, Error("Book not found"));
      }
      if body.content.None? {
        return ServerError;
      }
      PutParagraph(newId, Paragraph(key.value, body.content.value));
      r := Response(201, Created(Hyphenated(newId), "Paragraph created successfully"));
    }

    /** `paragraph_detail`, GET. */
    method ParagraphDetailGet(id: Id) returns (r: Response)
      requires Valid() && IsId(id)
      ensures id !in paragraphs ==> r == Response(404, Error("Paragraph not found"))
      ensures id in paragraphs ==>
                r == Response(200, ParagraphFields(Hyphenated(id), Hyphenated(paragraphs[id].book), paragraphs[id].content))
    {
      if id !in paragraphs {
        return Response(404, Error("Paragraph not found"));
      }
      r := Response(200, ParagraphFields(Hyphenated(id), Hyphenated(paragraphs[id].book), paragraphs[id].content));
    }

    /** `paragraph_detail`, PUT: the content is replaced when the body carries it. */
    method ParagraphDetailPut(id: Id, content: Option<string>) returns (r: Response)
      requires Valid() && IsId(id)
      modifies this
      ensures Valid()
      ensures id !in old(paragraphs) ==> r == Response(404, Error("Paragraph not found")) && Snapshot() == old(Snapshot())
      ensures id in old(paragraphs) ==>
                r == Response(200, Message("Paragraph updated successfully"))
                && Snapshot() == old(Snapshot()).(paragraphs := old(paragraphs)[id := old(paragraphs)[id].(content := content.GetOr(old(paragraphs)[id].content))])
    {
      if id !in paragraphs {
        return Response(404, Error("Paragraph not found"));
      }
      PutParagraph(id, paragraphs[id].(content := content.GetOr(paragraphs[id].content)));
      r := Response(200, Message("Paragraph updated successfully"));
    }

    /** `paragraph_detail`, DELETE: the paragraph and its events are removed. */
    method ParagraphDetailDelete(id: Id) returns (r: Response)
      requires Valid() && IsId(id)
      modifies this
      ensures Valid()
      ensures id !in old(paragraphs) ==> r == Response(404, Error("Paragraph not found")) && Snapshot() == old(Snapshot())
      ensures id in old(paragraphs) ==>
                r == Response(200, Message("Paragraph deleted successfully")) && Snapshot() == DeleteParagraph(old(Snapshot()), id)
    {
      if id !in paragraphs {
        return Response(404, Error("Paragraph not found"));
      }
      DeleteParagraphKeepsConsistent(Snapshot(), id);
      var t := DeleteParagraph(Snapshot(), id);
      paragraphs, events := t.paragraphs, t.events;
      r := Response(200, Message("Paragraph deleted successfully"));
    }

    /**
     * `useridentifier_list`, POST: 400 when the identifier is already taken; a missing
     * identifier or one over 100 characters is a 500; otherwise exactly one user is added.
     */
    method UserListPost(identifier: Option<string>, newId: Id) returns (r: Response)
      requires Valid() && IsId(newId) && newId !in users
      modifies this
      ensures Valid()
      ensures (exists u | u in old(users) :: Some(old(users)[u].identifier) == identifier) ==>
                r == Response(400, Error("UserIdentifier already exists"))
      ensures r.status == 201 <==>
                identifier.Some? && |identifier.value| <= IdentifierMax
                && forall u | u in old(users) :: old(users)[u].identifier != identifier.value
      ensures r.status == 201 ==>
                r.body == Created(Hyphenated(newId), "UserIdentifier created successfully")
                && Snapshot() == old(Snapshot()).(users := old(users)[newId := UserIdentifier(identifier.value)])
      ensures r.status != 201 ==> Snapshot() == old(Snapshot())
    {
      if exists u | u in users :: Some(users[u].identifier) == identifier {
        return Response(400, Error("UserIdentifier already exists"));
      }
      if identifier.None? || |identifier.value| > IdentifierMax {
        return ServerError;
      }
      PutUser(newId, UserIdentifier(identifier.value));
      r := Response(201, Created(Hyphenated(newId), "UserIdentifier created successfully"));
    }

    /** `useridentifier_detail`, GET. */
    method UserDetailGet(id: Id) returns (r: Response)
      requires Valid() && IsId(id)
      ensures id !in users ==> r == Response(404, Error("UserIdentifier not found"))
      ensures id in users ==> r == Response(200, UserFields(Hyphenated(id), users[id].identifier))
    {
      if id !in users {
        return Response(404, Error("UserIdentifier not found"));
      }
      r := Response(200, UserFields(Hyphenated(id), users[id].identifier));
    }

    /**
     * `useridentifier_detail`, PUT: 400 and no change when a different user already has the
     * resulting identifier; otherwise the identifier is replaced when the body carries it.
     */
    method UserDetailPut(id: Id, identifier: Option<string>) returns (r: Response)
      requires Valid() && IsId(id)
      modifies this
      ensures Valid()
      ensures id !in old(users) ==> r == Response(404, Error("UserIdentifier not found")) && Snapshot() == old(Snapshot())
      ensures id in old(users) ==>
                var wanted := identifier.GetOr(old(users)[id].identifier);
                && ((exists u | u in old(users) :: u != id && old(users)[u].identifier == wanted) ==>
                      r == Response(400, Error("Identifier already exists")))
                && (r.status == 200 <==>
                      |wanted| <= IdentifierMax && forall u | u in old(users) && u != id :: old(users)[u].identifier != wanted)
                && (r.status == 200 ==>
                      r.body == Message("UserIdentifier updated successfully")
                      && Snapshot() == old(Snapshot()).(users := old(users)[id := UserIdentifier(wanted)]))
      ensures r.status != 200 ==> Snapshot() == old(Snapshot())
    {
      if id !in users {
        return Response(404, Error("UserIdentifier not found"));
      }
      var wanted := identifier.GetOr(users[id].identifier);
      if exists u | u in users :: u != id && users[u].identifier == wanted {
        return Response(400, Error("Identifier already exists"));
      }
      if |wanted| > IdentifierMax {
        return ServerError;
      }
      PutUser(id, UserIdentifier(wanted));
      r := Response(200, Message("UserIdentifier updated successfully"));
    }

    /** `useridentifier_detail`, DELETE: the user and their events are removed. */
    method UserDetailDelete(id: Id) returns (r: Response)
      requires Valid() && IsId(id)
      modifies this
      ensures Valid()
      ensures id !in old(users) ==> r == Response(404, Error("UserIdentifier not found")) && Snapshot() == old(Snapshot())
      ensures id in old(users) ==>
                r == Response(200, Message("UserIdentifier deleted successfully")) && Snapshot() == DeleteUser(old(Snapshot()), id)
    {
      if id !in users {
        return Response(404, Error("UserIdentifier not found"));
      }
      DeleteUserKeepsConsistent(Snapshot(), id);
      var t := DeleteUser(Snapshot(), id);
      users, events := t.users, t.events;
      r := Response(200, Message("UserIdentifier deleted successfully"));
    }

    /**
     * `event_list`, POST: finds the user by identifier and the paragraph by its parsed id, then
     * gets or creates the single event of the pair and applies the flag keys the body carries.
     * The answer is 201 when the event was created and 200 when it existed; every error leaves
     * the events as they were.
     */
    method EventListPost(body: EventBody, newId: Id) returns (r: Response)
      requires Valid() && IsId(newId) && newId !in events
      modifies this
      ensures Valid()
      ensures books == old(books) && paragraphs == old(paragraphs) && users == old(users)
      ensures EventTarget(old(Snapshot()), body.userId, body.paragraphId).Err? ==>
                r == EventTarget(old(Snapshot()), body.userId, body.paragraphId).error && events == old(events)
      ensures EventTarget(old(Snapshot()), body.userId, body.paragraphId).Ok? ==>
                var (u, p) := EventTarget(old(Snapshot()), body.userId, body.paragraphId).value;
                && (r.status == 201 <==> EventFor(old(events), u, p).None?)
                && (EventFor(old(events), u, p).None? ==>
                      r == Response(201, EventSaved(Hyphenated(newId), "Event created successfully", Apply(NoFlags, body.patch)))
                      && events == old(events)[newId := Event(u, p, Apply(NoFlags, body.patch))])
                && (EventFor(old(events), u, p).Some? ==>
                      var e := EventFor(old(events), u, p).value;
                      r == Response(200, EventSaved(Hyphenated(e), "Event updated successfully", Apply(old(events)[e].flags, body.patch)))
                      && events == old(events)[e := old(events)[e].(flags := Apply(old(events)[e].flags, body.patch))])
                && EventFor(events, u, p).Some? && events[EventFor(events, u, p).value].flags == r.body.flags
    {
      var target := EventTarget(Snapshot(), body.userId, body.paragraphId);
      if target.Err? {
        return target.error;
      }
      var user, key := target.value.0, target.value.1;
      var existing := EventFor(events, user, key);
      if existing.Some? {
        var e := existing.value;
        var flags := AssignFlags(events[e].flags, body.patch);
        SetFlags(e, flags);
        r := Response(200, EventSaved(Hyphenated(e), "Event updated successfully", flags));
      } else {
        var flags := AssignFlags(NewEvent(user, key).flags, body.patch);
        AddEvent(newId, Event(user, key, flags));
        r := Response(201, EventSaved(Hyphenated(newId), "Event created successfully", flags));
      }
    }

    /** Stores book row `b` under `id`, when no other book has its title and author. */
    method PutBook(id: Id, b: Book)
      requires Valid() && IsId(id) && BookFits(b)
      requires forall a | a in books && a != id :: books[a].title != b.title || books[a].author != b.author
      modifies this
      ensures Valid()
      ensures Snapshot() == old(Snapshot()).(books := old(books)[id := b])
    {
      PutBookKeepsConsistent(Snapshot(), id, b);
      books := books[id := b];
    }

    /** Stores paragraph row `p` under `id`, for an existing book. */
    method PutParagraph(id: Id, p: Paragraph)
      requires Valid() && IsId(id) && p.book in books
      modifies this
      ensures Valid()
      ensures Snapshot() == old(Snapshot()).(paragraphs := old(paragraphs)[id := p])
    {
      PutParagraphKeepsConsistent(Snapshot(), id, p);
      paragraphs := paragraphs[id := p];
    }

    /** Stores user row `u` under `id`, when no other user has its identifier. */
    method PutUser(id: Id, u: UserIdentifier)
      requires Valid() && IsId(id) && UserFits(u)
      requires forall v | v in users && v != id :: users[v].identifier != u.identifier
      modifies this
      ensures Valid()
      ensures Snapshot() == old(Snapshot()).(users := old(users)[id := u])
    {
      PutUserKeepsConsistent(Snapshot(), id, u);
      users := users[id := u];
    }

    /** Stores new flags for event `e`; the event still holds its pair. */
    method SetFlags(e: Id, flags: Flags)
      requires Valid() && e in events
      modifies this
      ensures Valid()
      ensures books == old(books) && paragraphs == old(paragraphs) && users == old(users)
      ensures events == old(events)[e := old(events)[e].(flags := flags)]
      ensures EventFor(events, events[e].user, events[e].paragraph) == Some(e)
    {
      SetFlagsKeepsConsistent(Snapshot(), e, flags);
      events := events[e := events[e].(flags := flags)];
      EventForFinds(events, e);
    }

    /** Stores event `ev` under the new id `id`, for a pair no event holds yet. */
    method AddEvent(id: Id, ev: Event)
      requires Valid() && IsId(id) && id !in events
      requires ev.user in users && ev.paragraph in paragraphs
      requires forall f | f in events :: events[f].user != ev.user || events[f].paragraph != ev.paragraph
      modifies this
      ensures Valid()
      ensures books == old(books) && paragraphs == old(paragraphs) && users == old(users)
      ensures events == old(events)[id := ev]
      ensures EventFor(events, ev.user, ev.paragraph) == Some(id)
    {
      PutEventKeepsConsistent(Snapshot(), id, ev);
      events := events[id := ev];
      EventForFinds(events, id);
    }

    /** `event_detail`, GET. */
    method EventDetailGet(id: Id) returns (r: Response)
      requires Valid() && IsId(id)
      ensures id !in events ==> r == Response(404, Error("Event not found"))
      ensures id in events ==>
                r == Response(200, EventFields(Hyphenated(id), Hyphenated(events[id].user), Hyphenated(events[id].paragraph), events[id].flags))
    {
      if id !in events {
        return Response(404, Error("Event not found"));
      }
      r := Response(200, EventFields(Hyphenated(id), Hyphenated(events[id].user), Hyphenated(events[id].paragraph), events[id].flags));
    }

    /** `event_detail`, PUT: only the flags whose keys the body carries change. */
    method EventDetailPut(id: Id, patch: FlagPatch) returns (r: Response)
      requires Valid() && IsId(id)
      modifies this
      ensures Valid()
      ensures id !in old(events) ==> r == Response(404, Error("Event not found")) && Snapshot() == old(Snapshot())
      ensures id in old(events) ==>
                r == Response(200, Message("Event updated successfully"))
                && Snapshot() == old(Snapshot()).(events := old(events)[id := old(events)[id].(flags := Apply(old(events)[id].flags, patch))])
    {
      if id !in events {
        return Response(404, Error("Event not found"));
      }
      var flags := AssignFlags(events[id].flags, patch);
      SetFlags(id, flags);
      r := Response(200, Message("Event updated successfully"));
    }

    /** `event_detail`, DELETE. */
    method EventDetailDelete(id: Id) returns (r: Response)
      requires Valid() && IsId(id)
      modifies this
      ensures Valid()
      ensures id !in old(events) ==> r == Response(404, Error("Event not found")) && Snapshot() == old(Snapshot())
      ensures id in old(events) ==>
                r == Response(200, Message("Event deleted successfully")) && Snapshot() == DeleteEvent(old(Snapshot()), id)
    {
      if id !in events {
        return Response(404, Error("Event not found"));
      }
      events := events - {id};
      r := Response(200, Message("Event deleted successfully"));
    }

    /**
     * `get_user_paragraph_event`: the flags of the pair's event, or all four false when the pair
     * has none. Nothing is created. Only GET is answered.
     */
    method UserParagraphEvent(verb: Verb, userId: string, paragraphId: string) returns (r: Response)
      requires Valid()
      ensures verb != Get ==> r == Response(405, Error("Invalid HTTP method"))
      ensures verb == Get && EventTarget(Snapshot(), Some(userId), Some(paragraphId)).Err? ==>
                r == EventTarget(Snapshot(), Some(userId), Some(paragraphId)).error
      ensures r.status == 200 <==> verb == Get && EventTarget(Snapshot(), Some(userId), Some(paragraphId)).Ok?
      ensures r.status == 200 ==>
                var p := EventTarget(Snapshot(), Some(userId), Some(paragraphId)).value.1;
                && r.body.Interaction? && r.body.userId == userId && r.body.paragraphId == paragraphId
                && (forall e | e in events && events[e].paragraph == p && Identifies(users, userId, events[e].user) ::
                      r.body.flags == events[e].flags && r.body.eventId == Some(Hyphenated(e)))
                && ((forall e | e in events && events[e].paragraph == p :: !Identifies(users, userId, events[e].user)) ==>
                      r.body.flags == NoFlags && r.body.eventId.None?)
    {
      if verb != Get {
        return Response(405, Error("Invalid HTTP method"));
      }
      var target := EventTarget(Snapshot(), Some(userId), Some(paragraphId));
      if target.Err? {
        return target.error;
      }
      var event := EventFor(events, target.value.0, target.value.1);
      if event.Some? {
        var e := event.value;
        r := Response(200, Interaction(Some(Hyphenated(e)), userId, paragraphId, events[e].flags));
      } else {
        r := Response(200, Interaction(None, userId, paragraphId, NoFlags));
      }
    }

    /**
     * `get_random_paragraphs`: 404 when there is no paragraph; otherwise min(5, n) distinct
     * paragraphs chosen at random, each with its book, its per-flag event counts and the flags of
     * the named user's event on it (all false when the user is not named, unknown or has none).
     * Ids are given without hyphens. Nothing changes.
     */
    method RandomParagraphs(verb: Verb, who: Option<string>) returns (r: Response)
      requires Valid()
      ensures verb != Get ==> r == Response(405, Error("Invalid HTTP method"))
      ensures verb == Get && paragraphs == map[] ==> r == Response(404, Error("No paragraphs available"))
      ensures r.status == 200 <==> verb == Get && paragraphs != map[]
      ensures r.status == 200 ==> r.body.RandomList?
      ensures r.status == 200 ==> |r.body.entries| == (if |paragraphs.Keys| < 5 then |paragraphs.Keys| else 5)
      ensures r.status == 200 ==>
                forall i, j | 0 <= i < j < |r.body.entries| :: r.body.entries[i].paragraphId != r.body.entries[j].paragraphId
      ensures r.status == 200 ==>
                forall k | 0 <= k < |r.body.entries| :: Describes(Snapshot(), who, r.body.entries[k])
    {
      if verb != Get {
        return Response(405, Error("Invalid HTTP method"));
      }
      if paragraphs == map[] {
        return Response(404, Error("No paragraphs available"));
      }
      var n := if |paragraphs.Keys| < 5 then |paragraphs.Keys| else 5;
      var sample := PickSample(paragraphs.Keys, n);
      var user: Option<Id> := None;
      if who.Some? && who.value != "" {
        user := UserWithIdentifier(users, who.value);
      }
      var entries := BuildEntries(Snapshot(), who, user, sample);
      r := Response(200, RandomList(entries));
    }
  }
}
