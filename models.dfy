/**
 * The four tables of the backend (books, paragraphs, user identifiers and reaction events),
 * their column bounds, their uniqueness rules and their cascading deletes. A row's primary key
 * is a UUID, kept here in its canonical form: 32 lower-case hexadecimal digits.
 */
module Models {
  import opened Text
  import opened Reactions

  /** The canonical form of a UUID primary key: 32 lower-case hexadecimal digits. */
  type Id = string

  predicate IsLowerHex(c: char) { IsDigit(c) || 'a' <= c <= 'f' }

  predicate IsId(s: string) { |s| == 32 && forall k | 0 <= k < 32 :: IsLowerHex(s[k]) }

  /** Column bounds (`max_length`); a URL column's default bound is 200. */
  const TitleMax: nat := 200
  const AuthorMax: nat := 100
  const LanguageMax: nat := 50
  const SourceMax: nat := 200
  const IdentifierMax: nat := 100

  /** A book row. The publication date is kept as the text the request carried. */
  datatype Book = Book(title: string, author: string, publishedDate: string, language: string, source: string)

  predicate BookFits(b: Book) {
    |b.title| <= TitleMax && |b.author| <= AuthorMax && |b.language| <= LanguageMax && |b.source| <= SourceMax
  }

  /** A paragraph row belongs to exactly one book. */
  datatype Paragraph = Paragraph(book: Id, content: string)

  datatype UserIdentifier = UserIdentifier(identifier: string)

  predicate UserFits(u: UserIdentifier) { |u.identifier| <= IdentifierMax }

  /** An event row: one user's four reaction flags on one paragraph. */
  datatype Event = Event(user: Id, paragraph: Id, flags: Flags)

  /** The event `get_or_create` inserts: every flag at its default, false. */
  function NewEvent(user: Id, paragraph: Id): (e: Event)
    ensures !e.flags.liked && !e.flags.disliked && !e.flags.hearted && !e.flags.bookmarked
    ensures e.user == user && e.paragraph == paragraph
  {
    Event(user, paragraph, NoFlags)
  }

  datatype Tables = Tables(
    books: map<Id, Book>,
    paragraphs: map<Id, Paragraph>,
    users: map<Id, UserIdentifier>,
    events: map<Id, Event>)

  predicate KeysWellFormed(t: Tables) {
    && (forall b | b in t.books :: IsId(b))
    && (forall p | p in t.paragraphs :: IsId(p))
    && (forall u | u in t.users :: IsId(u))
    && (forall e | e in t.events :: IsId(e))
  }

  /** Every paragraph's book exists. */
  predicate ParagraphsHaveBooks(t: Tables) {
    forall p | p in t.paragraphs :: t.paragraphs[p].book in t.books
  }

  /** Every event's user and paragraph exist. */
  predicate EventsHaveOwners(t: Tables) {
    forall e | e in t.events :: t.events[e].user in t.users && t.events[e].paragraph in t.paragraphs
  }

  /** `identifier` is a unique column. */
  predicate UniqueIdentifiers(users: map<Id, UserIdentifier>) {
    forall u, v | u in users && v in users && users[u].identifier == users[v].identifier :: u == v
  }

  /** `unique_together = ['user', 'paragraph']`. */
  predicate OneEventPerPair(events: map<Id, Event>) {
    forall e, f | e in events && f in events && events[e].user == events[f].user && events[e].paragraph == events[f].paragraph :: e == f
  }

  predicate WithinBounds(t: Tables) {
    && (forall b | b in t.books :: BookFits(t.books[b]))
    && (forall u | u in t.users :: UserFits(t.users[u]))
  }

  /** Everything the schema guarantees about the four tables together. */
  predicate Consistent(t: Tables) {
    && KeysWellFormed(t)
    && ParagraphsHaveBooks(t)
    && EventsHaveOwners(t)
    && UniqueIdentifiers(t.users)
    && OneEventPerPair(t.events)
    && WithinBounds(t)
  }

  /** The empty database. */
  const Empty: Tables := Tables(map[], map[], map[], map[])

  lemma EmptyIsConsistent()
    ensures Consistent(Empty)
  {
  }

  /** Deleting an event removes that row and nothing else. */
  function DeleteEvent(t: Tables, id: Id): (r: Tables)
    ensures r.books == t.books && r.paragraphs == t.paragraphs && r.users == t.users
    ensures r.events.Keys == t.events.Keys - {id}
    ensures forall e | e in r.events :: r.events[e] == t.events[e]
    ensures Consistent(t) ==> Consistent(r)
  {
    t.(events := t.events - {id})
  }

  /** Every row of `m` is the same row in `n`. */
  ghost predicate SubMap<V>(m: map<Id, V>, n: map<Id, V>) {
    forall k | k in m :: k in n && m[k] == n[k]
  }

  /**
   * Keeping only some rows of consistent tables keeps them consistent, provided every kept
   * paragraph's book and every kept event's user and paragraph are kept too.
   */
  lemma SubTablesConsistent(t: Tables, r: Tables)
    requires Consistent(t)
    requires SubMap(r.books, t.books) && SubMap(r.paragraphs, t.paragraphs)
    requires SubMap(r.users, t.users) && SubMap(r.events, t.events)
    requires ParagraphsHaveBooks(r) && EventsHaveOwners(r)
    ensures Consistent(r)
  {
    assert KeysWellFormed(r);
    assert UniqueIdentifiers(r.users);
    assert OneEventPerPair(r.events);
    assert WithinBounds(r);
  }

  /** Deleting a paragraph removes it and, by cascade, every event on it. */
  function DeleteParagraph(t: Tables, id: Id): (r: Tables)
    ensures r.books == t.books && r.users == t.users
    ensures r.paragraphs.Keys == t.paragraphs.Keys - {id}
    ensures forall p | p in r.paragraphs :: r.paragraphs[p] == t.paragraphs[p]
    ensures forall e :: e in r.events <==> e in t.events && t.events[e].paragraph != id
    ensures forall e | e in r.events :: r.events[e] == t.events[e]
  {
    Tables(
      t.books,
      t.paragraphs - {id},
      t.users,
      map e | e in t.events && t.events[e].paragraph != id :: t.events[e])
  }

  /** Deleting a paragraph through its cascade keeps the tables consistent. */
  lemma DeleteParagraphKeepsConsistent(t: Tables, id: Id)
    requires Consistent(t)
    ensures Consistent(DeleteParagraph(t, id))
  {
    SubTablesConsistent(t, DeleteParagraph(t, id));
  }

  /**
   * Deleting a book removes it, by cascade every paragraph of the book, and through those
   * every event on one of them.
   */
  function DeleteBook(t: Tables, id: Id): (r: Tables)
    ensures r.users == t.users
    ensures r.books.Keys == t.books.Keys - {id}
    ensures forall b | b in r.books :: r.books[b] == t.books[b]
    ensures forall p :: p in r.paragraphs <==> p in t.paragraphs && t.paragraphs[p].book != id
    ensures forall p | p in r.paragraphs :: r.paragraphs[p] == t.paragraphs[p]
    ensures forall e :: e in r.events <==> e in t.events && t.events[e].paragraph in r.paragraphs
    ensures forall e | e in r.events :: r.events[e] == t.events[e]
  {
    var paragraphs := map p | p in t.paragraphs && t.paragraphs[p].book != id :: t.paragraphs[p];
    Tables(
      t.books - {id},
      paragraphs,
      t.users,
      map e | e in t.events && t.events[e].paragraph in paragraphs :: t.events[e])
  }

  /** Deleting a book through its cascade keeps the tables consistent. */
  lemma DeleteBookKeepsConsistent(t: Tables, id: Id)
    requires Consistent(t)
    ensures Consistent(DeleteBook(t, id))
  {
    SubTablesConsistent(t, DeleteBook(t, id));
  }

  /** Deleting a user identifier removes it and, by cascade, every event of that user. */
  function DeleteUser(t: Tables, id: Id): (r: Tables)
    ensures r.books == t.books && r.paragraphs == t.paragraphs
    ensures r.users.Keys == t.users.Keys - {id}
    ensures forall u | u in r.users :: r.users[u] == t.users[u]
    ensures forall e :: e in r.events <==> e in t.events && t.events[e].user != id
    ensures forall e | e in r.events :: r.events[e] == t.events[e]
  {
    Tables(
      t.books,
      t.paragraphs,
      t.users - {id},
      map e | e in t.events && t.events[e].user != id :: t.events[e])
  }

  /** Deleting a user through its cascade keeps the tables consistent. */
  lemma DeleteUserKeepsConsistent(t: Tables, id: Id)
    requires Consistent(t)
    ensures Consistent(DeleteUser(t, id))
  {
    SubTablesConsistent(t, DeleteUser(t, id));
  }

  /**
   * Writing event `e` keeps the tables consistent when the event's user and paragraph exist and
   * `e` is the only event of its pair: the existing row of the pair, or a fresh key when the pair
   * has none.
   */
  lemma PutEventKeepsConsistent(t: Tables, e: Id, ev: Event)
    requires Consistent(t) && IsId(e)
    requires ev.user in t.users && ev.paragraph in t.paragraphs
    requires forall f | f in t.events && f != e :: t.events[f].user != ev.user || t.events[f].paragraph != ev.paragraph
    ensures Consistent(t.(events := t.events[e := ev]))
  {
  }

  /** Writing a book row that fits its columns keeps the tables consistent. */
  lemma PutBookKeepsConsistent(t: Tables, id: Id, b: Book)
    requires Consistent(t) && IsId(id) && BookFits(b)
    ensures Consistent(t.(books := t.books[id := b]))
  {
  }

  /** Writing a paragraph row of an existing book keeps the tables consistent. */
  lemma PutParagraphKeepsConsistent(t: Tables, id: Id, p: Paragraph)
    requires Consistent(t) && IsId(id) && p.book in t.books
    ensures Consistent(t.(paragraphs := t.paragraphs[id := p]))
  {
  }

  /**
   * Writing a user row keeps the tables consistent when its identifier fits and no other user
   * has it.
   */
  lemma PutUserKeepsConsistent(t: Tables, id: Id, u: UserIdentifier)
    requires Consistent(t) && IsId(id) && UserFits(u)
    requires forall v | v in t.users && v != id :: t.users[v].identifier != u.identifier
    ensures Consistent(t.(users := t.users[id := u]))
  {
  }

  /** Changing an event's flags keeps the tables consistent. */
  lemma SetFlagsKeepsConsistent(t: Tables, e: Id, flags: Flags)
    requires Consistent(t) && e in t.events
    ensures Consistent(t.(events := t.events[e := t.events[e].(flags := flags)]))
  {
    var ev := t.events[e].(flags := flags);
    forall f | f in t.events && f != e
      ensures t.events[f].user != ev.user || t.events[f].paragraph != ev.paragraph
    {
    }
    PutEventKeepsConsistent(t, e, ev);
  }

  /**
   * After a book is deleted no paragraph refers to it and no event sits on one of its
   * paragraphs: the cascade leaves nothing behind.
   */
  lemma DeleteBookLeavesNoOrphans(t: Tables, id: Id)
    requires Consistent(t)
    ensures forall p | p in DeleteBook(t, id).paragraphs :: DeleteBook(t, id).paragraphs[p].book != id
    ensures forall e | e in t.events && t.paragraphs[t.events[e].paragraph].book == id :: e !in DeleteBook(t, id).events
    ensures forall e | e in t.events && t.paragraphs[t.events[e].paragraph].book != id :: e in DeleteBook(t, id).events
  {
  }
}
