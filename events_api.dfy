/**
 * The browser's client for the backend's user, event and random-paragraph endpoints: how each
 * call classifies the answer it receives and reshapes its body. The network is not modelled: a
 * call's outcome is an input, either an answer (status and decoded body) or the error `fetch`
 * threw.
 */
module EventsApi {
  import opened Wrappers
  import opened Text
  import opened Reactions
  import Models
  import Views

  /** What `fetch` produced: an answer, or a thrown error. A failed network request throws a `TypeError`. */
  datatype Fetched<B> = Answered(status: int, body: B) | Threw(error: Thrown)

  datatype Thrown = NetworkTypeError | OtherError(message: string)

  /** `response.ok`: a status in the 2xx range. */
  predicate IsOk(status: int) { 200 <= status <= 299 }

  /** A JavaScript value used in a condition: absent, `undefined` and `""` are falsy. */
  predicate Truthy(v: Option<string>) { v.Some? && v.value != "" }

  /** `a || b` on two optional strings: `a` when it is truthy, otherwise `b`. */
  function Or(a: Option<string>, b: Option<string>): (r: Option<string>)
    ensures Truthy(a) ==> r == a
    ensures !Truthy(a) ==> r == b
  {
    if Truthy(a) then a else b
  }

  /** `a || fallback` with a string fallback. */
  function OrElse(a: Option<string>, fallback: string): (r: string)
    ensures fallback != "" ==> r != ""
    ensures Truthy(a) ==> r == a.value
    ensures !Truthy(a) ==> r == fallback
  {
    if Truthy(a) then a.value else fallback
  }

  /**
   * The fields of an error answer the client looks at. `response.json().catch(() => ({}))` turns
   * an unreadable body into `{}`: all three absent.
   */
  datatype ErrorBody = ErrorBody(error: Option<string>, message: Option<string>, identifier: Option<string>)

  const NoFields: ErrorBody := ErrorBody(None, None, None)

  /** What `createUser` concluded (and logged). */
  datatype UserCreation = UserCreated | UserAlreadyExists | CreationRejected | CreationFailed | BackendUnreachable

  /**
   * `createUser`: 201 is a creation; a 400 whose body has an `identifier`, or a `message`
   * mentioning `already exists` or `unique`, is an existing user; any other 400 is a rejection;
   * other statuses are failures; a thrown error is caught. The call never throws.
   */
  function CreateUser(f: Fetched<ErrorBody>): (r: Result<UserCreation, string>)
    ensures r.Ok?
    ensures f.Threw? ==> r.value == BackendUnreachable
    ensures f.Answered? && f.status == 201 ==> r.value == UserCreated
    ensures f.Answered? && f.status == 400 ==>
              (r.value == UserAlreadyExists <==>
                Truthy(f.body.identifier)
                || (f.body.message.Some? && (Contains(f.body.message.value, "already exists") || Contains(f.body.message.value, "unique"))))
  {
    match f
    case Threw(_) => Ok(BackendUnreachable)
    case Answered(status, body) =>
      if status == 201 then Ok(UserCreated)
      else if status == 400 then
        if Truthy(body.identifier) || (body.message.Some? && (Contains(body.message.value, "already exists") || Contains(body.message.value, "unique"))) then
          Ok(UserAlreadyExists)
        else Ok(CreationRejected)
      else Ok(CreationFailed)
  }

  /**
   * The backend reports a taken identifier in the `error` field, which `createUser` does not
   * read: the duplicate answer is logged as a plain rejection, and the call still returns normally.
   */
  lemma DuplicateAnswerIsARejection()
    ensures CreateUser(Answered(400, ErrorBody(Some("UserIdentifier already exists"), None, None))) == Ok(CreationRejected)
  {
  }

  /** One paragraph of the random-paragraphs answer, with the fields the client reads. */
  datatype RawParagraph = RawParagraph(
    id: Option<string>,
    paragraphId: Option<string>,
    content: Option<string>,
    text: Option<string>,
    title: Option<string>,
    author: Option<string>,
    userInteractions: Option<Flags>)

  /** The decoded body of a successful answer: an array of paragraphs, or a single one. */
  datatype RandomBody = Many(items: seq<RawParagraph>) | One(item: RawParagraph)

  /** The `ParagraphResponse` the feed renders. */
  datatype ParagraphView = ParagraphView(id: string, text: string, title: string, author: string, userInteractions: Option<Flags>)

  /** `Math.floor(r * n)` for `0 <= r < 1` is an index into a sequence of length `n`. */
  function PickIndex(r: real, n: nat): (i: nat)
    requires 0.0 <= r < 1.0 && n > 0
    ensures i < n
  {
    var x := r * n as real;
    assert x < n as real;
    x.Floor
  }

  /**
   * The transformation and checks of `getRandomParagraph` on the chosen element: the id is
   * `id` or else `paragraph_id`, the text is `content` or else `text` or else empty, title and
   * author fall back to placeholders; an element without id or text is refused.
   */
  function Transform(data: RawParagraph): (r: Result<ParagraphView, string>)
    ensures !Truthy(Or(data.id, data.paragraphId)) ==> r == Err("Paragraph has no ID")
    ensures Truthy(Or(data.id, data.paragraphId)) && !Truthy(Or(data.content, data.text)) ==> r == Err("Paragraph has no content")
    ensures r.Ok? <==> Truthy(Or(data.id, data.paragraphId)) && Truthy(Or(data.content, data.text))
    ensures r.Ok? ==>
              && r.value.id != "" && r.value.text != "" && r.value.title != "" && r.value.author != ""
              && r.value.id == (if Truthy(data.id) then data.id.value else data.paragraphId.value)
              && r.value.text == (if Truthy(data.content) then data.content.value else data.text.value)
              && (r.value.title == "Unknown Title" <==> !Truthy(data.title) || data.title == Some("Unknown Title"))
              && (r.value.author == "Unknown Author" <==> !Truthy(data.author) || data.author == Some("Unknown Author"))
              && r.value.userInteractions == data.userInteractions
  {
    var id := Or(data.id, data.paragraphId);
    var text := OrElse(Or(data.content, data.text), "");
    var view := ParagraphView(if id.Some? then id.value else "", text, OrElse(data.title, "Unknown Title"),
      OrElse(data.author, "Unknown Author"), data.userInteractions);
    if !Truthy(id) then Err("Paragraph has no ID")
    else if view.text == "" then Err("Paragraph has no content")
    else Ok(view)
  }

  /**
   * `getRandomParagraph`: 404 and an empty array are "No paragraphs available", any other
   * failure status is "Failed to fetch paragraph"; from an array the element at
   * `floor(r * length)` is used, `r` being the value `Math.random()` returned.
   */
  function GetRandomParagraph(status: int, body: RandomBody, r: real): (res: Result<ParagraphView, string>)
    requires 0.0 <= r < 1.0
    ensures !IsOk(status) && status == 404 ==> res == Err("No paragraphs available")
    ensures !IsOk(status) && status != 404 ==> res == Err("Failed to fetch paragraph")
    ensures IsOk(status) && body == Many([]) ==> res == Err("No paragraphs available")
    ensures IsOk(status) && body.Many? && body.items != [] ==>
              exists i | 0 <= i < |body.items| :: res == Transform(body.items[i])
    ensures IsOk(status) && body.One? ==> res == Transform(body.item)
  {
    if !IsOk(status) then
      if status == 404 then Err("No paragraphs available") else Err("Failed to fetch paragraph")
    else
      match body
      case One(item) => Transform(item)
      case Many(items) =>
        if items == [] then Err("No paragraphs available")
        else Transform(items[PickIndex(r, |items|)])
  }

  /** How the random-paragraphs endpoint's element reaches the client: the fields it sends. */
  function FromEntry(en: Views.Entry): RawParagraph {
    RawParagraph(None, Some(en.paragraphId), Some(en.content), None, Some(en.title), Some(en.author), Some(en.userInteractions))
  }

  /**
   * Every element the backend sends is accepted when its content is non-empty: the client's id
   * is the backend's 32-digit paragraph key and its text the paragraph's content.
   */
  lemma BackendEntryIsAccepted(en: Views.Entry)
    requires Models.IsId(en.paragraphId) && en.content != ""
    ensures Transform(FromEntry(en)).Ok?
    ensures Transform(FromEntry(en)).value.id == en.paragraphId
    ensures Transform(FromEntry(en)).value.text == en.content
    ensures Transform(FromEntry(en)).value.userInteractions == Some(en.userInteractions)
  {
  }

  /**
   * `createOrUpdateEvent`: the decoded body on success; otherwise the answer's `error` field,
   * or "Failed to update event" when it has none.
   */
  function CreateOrUpdateEvent<B>(status: int, body: B, errorBody: ErrorBody): (r: Result<B, string>)
    ensures IsOk(status) <==> r.Ok?
    ensures r.Ok? ==> r.value == body
    ensures r.Err? ==> r.error != ""
    ensures r.Err? && Truthy(errorBody.error) ==> r.error == errorBody.error.value
    ensures r.Err? && !Truthy(errorBody.error) ==> r.error == "Failed to update event"
  {
    if IsOk(status) then Ok(body) else Err(OrElse(errorBody.error, "Failed to update event"))
  }

  /** The interaction record the client keeps for a (user, paragraph) pair. */
  datatype Interaction = Interaction(id: Option<string>, userId: string, paragraphId: string, flags: Flags)

  /** The record returned when the lookup finds nothing: the pair, and every flag false. */
  function DefaultInteraction(userId: string, paragraphId: string): (r: Interaction)
    ensures r.userId == userId && r.paragraphId == paragraphId && r.id.None?
    ensures !r.flags.liked && !r.flags.disliked && !r.flags.hearted && !r.flags.bookmarked
  {
    Interaction(None, userId, paragraphId, NoFlags)
  }

  /** Why the lookup rejected: the message it threw, or a body that is not JSON. */
  datatype LookupError = Failed(message: string) | UnreadableJson

  /**
   * A lookup answer: its status, the error fields of its body (read only when it failed) and
   * the record it decodes to (`None` when the body is not JSON).
   */
  datatype LookupAnswer = LookupAnswer(status: int, errorBody: ErrorBody, record: Option<Interaction>)

  /**
   * `getUserParagraphInteraction`: a 404 answer and a network `TypeError` both give the default
   * record; another failed answer throws its `error` field or "Failed to fetch event"; any other
   * thrown error is rethrown; a successful answer gives the decoded record.
   */
  function GetUserParagraphInteraction(userId: string, paragraphId: string, f: Fetched<LookupAnswer>): (r: Result<Interaction, LookupError>)
    ensures f == Threw(NetworkTypeError) ==> r == Ok(DefaultInteraction(userId, paragraphId))
    ensures f.Answered? && f.status == 404 ==> r == Ok(DefaultInteraction(userId, paragraphId))
    ensures f.Threw? && f.error.OtherError? ==> r == Err(Failed(f.error.message))
    ensures f.Answered? && f.status != 404 && !IsOk(f.status) ==>
              r == Err(Failed(OrElse(f.body.errorBody.error, "Failed to fetch event")))
    ensures f.Answered? && IsOk(f.status) ==>
              r == (if f.body.record.Some? then Ok(f.body.record.value) else Err(UnreadableJson))
    ensures r.Ok? && r.value.id.None? && f.Threw? ==> r.value.flags == NoFlags
  {
    match f
    case Threw(NetworkTypeError) => Ok(DefaultInteraction(userId, paragraphId))
    case Threw(OtherError(m)) => Err(Failed(m))
    case Answered(status, answer) =>
      if status == 404 then Ok(DefaultInteraction(userId, paragraphId))
      else if !IsOk(status) then Err(Failed(OrElse(answer.errorBody.error, "Failed to fetch event")))
      else if answer.record.Some? then Ok(answer.record.value)
      else Err(UnreadableJson)
  }

  /** The answer the client decodes from one of the interaction lookup's backend answers. */
  function LookupAnswerOf(resp: Views.Response): LookupAnswer {
    LookupAnswer(
      resp.status,
      if resp.body.Error? then ErrorBody(Some(resp.body.error), None, None) else NoFields,
      if resp.body.Interaction? then
        Some(Interaction(resp.body.eventId, resp.body.userId, resp.body.paragraphId, resp.body.flags))
      else None)
  }

  /**
   * The backend's failed lookups, as the client sees them: an unknown user or paragraph (404)
   * gives the default record, with every flag off; a malformed paragraph id (400) is an error
   * carrying the backend's message.
   */
  lemma BackendLookupErrorsReachClient(t: Models.Tables, userId: string, paragraphId: string)
    requires Models.UniqueIdentifiers(t.users)
    ensures var target := Views.EventTarget(t, Some(userId), Some(paragraphId));
            target.Err? ==>
              var got := GetUserParagraphInteraction(userId, paragraphId, Answered(target.error.status, LookupAnswerOf(target.error)));
              && (target.error.status == 404 ==> got == Ok(DefaultInteraction(userId, paragraphId)))
              && (target.error.status == 400 ==> target.error.body.Error? && got == Err(Failed(target.error.body.error)))
  {
  }
}
