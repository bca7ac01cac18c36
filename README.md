# BookByte in Dafny

BookByte shows readers short paragraphs from public-domain books and lets them react to each
paragraph. The reactions are like, dislike, heart and bookmark. This project models the core of
the system and proves properties of that model:

- **Backend data model.** The Django tables for books, paragraphs, user identifiers and reaction
  events. This covers their column bounds, the unique identifier, the one-event-per-pair rule
  and the cascading deletes (`models.dfy`).
- **Backend request handlers.** Each view is modelled as one method per HTTP method, on a
  `Store` class that holds the four tables (`views.dfy`). UUID parsing and rendering are in
  `py_uuid.dfy`.
- **Browser identity.** The pseudonymous identifier kept in local storage (`user_identifier.dfy`).
- **Browser API client.** The client for the user, event and random-paragraph endpoints
  (`events_api.dfy`).
- **Reaction buttons.** The buttons under a paragraph card (`action_buttons.dfy`). The flags
  and the partial flag update they share with the backend are in `reactions.dfy`.
- **Paragraph card.** The values the card derives from its props (`paragraph_card.dfy`).
- **Hosted `track-event` function.** Validates an event and appends it (`track_event.dfy`).
- **Admin page.** The page that ingests a Project Gutenberg book:
  - address checks and normalisation (`gutenberg_url.dfy`);
  - the metadata reader (`book_metadata.dfy`);
  - the release-date conversion (`release_date.dfy`);
  - the cleaning, checks and batched saving (`ingestion.dfy`);
  - the page's state and its two actions (`admin_page.dfy`).

`text.dfy` holds the string helpers these share. `wrappers.dfy` holds `Option`, `Result` and
`Outcome`.

Code that changes state in place is modelled as classes with `modifies` clauses. This covers
the view handlers over the database, the identity store, the reaction buttons, the hosted
tables and the admin page. The computations are functions, and what is promised about them
is stated in lemmas.

Whatever comes from the network, a clock or a random generator is an input of the operation.
That includes a fetch's answer, a thrown error, a new UUID, a random sample and `Math.random()`.

## Model

| member | source | states |
|---|---|---|
| Models.NewEvent | BookByte/backend/app/core/models.py:34-41 | a new event belongs to the given user and paragraph, with all four flags false |
| Models.EmptyIsConsistent | BookByte/backend/app/core/models.py:4-49 | the empty database satisfies every schema rule: well-formed keys, foreign keys present, unique identifiers, one event per pair, column bounds |
| Models.DeleteEvent | BookByte/backend/app/core/models.py:34-49 | deleting an event removes exactly that row, leaves the other tables alone and keeps the tables consistent |
| Models.DeleteParagraph | BookByte/backend/app/core/models.py:36-37 | deleting a paragraph removes it and exactly the events on it; every other row is kept unchanged |
| Models.DeleteBook | BookByte/backend/app/core/models.py:17 | deleting a book removes it, exactly its paragraphs and exactly the events on those paragraphs; every other row is kept unchanged |
| Models.DeleteUser | BookByte/backend/app/core/models.py:36 | deleting a user removes it and exactly that user's events; every other row is kept unchanged |
| Models.SubTablesConsistent | BookByte/backend/app/core/models.py:15-46 | keeping a subset of the rows keeps the schema rules, provided the kept foreign keys still point at kept rows |
| Models.DeleteParagraphKeepsConsistent | BookByte/backend/app/core/models.py:36-37 | the paragraph cascade leaves a consistent database |
| Models.DeleteBookKeepsConsistent | BookByte/backend/app/core/models.py:17 | the book cascade, through paragraphs to events, leaves a consistent database |
| Models.DeleteUserKeepsConsistent | BookByte/backend/app/core/models.py:36 | the user cascade leaves a consistent database |
| Models.PutEventKeepsConsistent | BookByte/backend/app/core/models.py:34-46 | writing an event whose user and paragraph exist and whose pair no other event holds keeps the database consistent (`unique_together`) |
| Models.PutBookKeepsConsistent | BookByte/backend/app/core/models.py:4-10 | writing a book that fits its column bounds keeps the database consistent |
| Models.PutParagraphKeepsConsistent | BookByte/backend/app/core/models.py:15-18 | writing a paragraph of an existing book keeps the database consistent |
| Models.PutUserKeepsConsistent | BookByte/backend/app/core/models.py:26-28 | writing a user whose identifier fits and is not held by another user keeps the database consistent |
| Models.SetFlagsKeepsConsistent | BookByte/backend/app/core/models.py:38-46 | changing only an event's flags keeps the database consistent |
| Models.DeleteBookLeavesNoOrphans | BookByte/backend/app/core/models.py:17 | after a book is deleted no paragraph refers to it; an event is gone exactly when its paragraph belonged to that book |
| Reactions.ApplyIdempotent | BookByte/backend/app/core/views.py:188-195 | applying the same flag keys twice gives the same flags as once, so the upsert can be retried |
| Reactions.ApplyChangesOnlyPresentKeys | BookByte/backend/app/core/views.py:188-195 | a flag changes exactly when its key is present and carries the other value; a present key sets its flag to the body's value; an empty body changes nothing |
| PyUuid.RemoveAbsent | BookByte/backend/app/core/views.py:345 | `replace` with a pattern whose first character never occurs returns the string unchanged |
| PyUuid.RemoveAllOneChar | BookByte/backend/app/core/views.py:345 | `replace(c, '')` with one character removes every occurrence of that character |
| PyUuid.RemoveCharAppend | BookByte/backend/app/core/views.py:345 | removing a character distributes over concatenation |
| PyUuid.StripBraces | BookByte/backend/app/core/views.py:170 | the stripped string has no brace at either end and is unchanged when it had none |
| PyUuid.ParseCleaned | BookByte/backend/app/core/views.py:170-171 | once cleaned, the string gives "badly formed hexadecimal UUID string" exactly when it is not 32 characters long, and `int()`'s "invalid literal for int() with base 16: …" message exactly when it is 32 characters long but not a base-16 literal; an accepted string gives the key of the literal's digits |
| PyUuid.KeyOf | BookByte/backend/app/core/views.py:170 | a key is 32 lower-case hexadecimal digits: the literal's digits in lower case, padded on the left with zeros |
| PyUuid.ParseUuid | BookByte/backend/app/core/views.py:170-171 | an accepted string gives a canonical key; a refused one gives one of the three `ValueError` texts, the invalid-literal one quoting the cleaned string |
| PyUuid.Hyphenated | BookByte/backend/app/core/views.py:25 | `str(key)` is 36 characters long |
| PyUuid.RemoveCharRemoves | BookByte/backend/app/core/views.py:170 | removing a character leaves none of it |
| PyUuid.RemoveCharKeepsDigits | BookByte/backend/app/core/views.py:170 | removing underscores from digits and underscores leaves only digits, and keeps a first digit |
| PyUuid.StripPySpace | BookByte/backend/app/core/views.py:170 | the white space `int()` skips is gone from both ends, and a string without it at its ends is unchanged |
| PyUuid.HexLiteralOf | BookByte/backend/app/core/views.py:170 | an accepted literal has at least one digit, every digit hexadecimal, no more digits than the string has characters, and a minus sign only when the string holds one |
| PyUuid.PyRepr | BookByte/backend/app/core/views.py:178-179 | `repr(s)` is enclosed in matching single or double quotes |
| PyUuid.NeverOutOfRange | BookByte/backend/app/core/views.py:170 | hyphens are removed before `int()` runs, so the negative-value error never arises |
| PyUuid.PrefixedDigits | BookByte/backend/app/core/views.py:170-171 | `0x` and 30 digits are accepted: the key is those digits behind two zeros |
| PyUuid.PaddedDigits | BookByte/backend/app/core/views.py:170-171 | a space and 31 digits are accepted: the key is those digits behind one zero |
| PyUuid.NotHexDigits | BookByte/backend/app/core/views.py:170-179 | 32 `g`s fail with `int()`'s message quoting the string, not with "badly formed" |
| PyUuid.DehyphenateHyphenated | BookByte/backend/app/core/views.py:345 | `str(key).replace('-', '')` gives back the key's 32 digits |
| PyUuid.LowerOfId | BookByte/backend/app/core/views.py:170 | a canonical key is its own lower-case form |
| PyUuid.ParseDigits | BookByte/backend/app/core/views.py:170 | the 32-digit form the random-paragraphs answer sends parses back to the same key |
| PyUuid.ParseHyphenated | BookByte/backend/app/core/views.py:170 | the hyphenated form `str(key)` parses back to the same key |
| PyUuid.ParseRendered | BookByte/backend/app/core/views.py:170 | both renderings of a key parse back to it: the round trip between the views' output and input |
| Views.NewBook | BookByte/backend/app/core/views.py:18-24 | a book is built exactly when the body carries all five keys, with the body's title and author |
| Views.UpdatedBook | BookByte/backend/app/core/views.py:50-62 | each key the PUT body carries replaces its field and every absent key leaves its field unchanged |
| Views.UserWithIdentifier | BookByte/backend/app/core/views.py:168 | the lookup returns the user holding the identifier, or none when no user holds it |
| Views.EventFor | BookByte/backend/app/core/views.py:182-185 | the lookup returns the event of the (user, paragraph) pair, or none when the pair has no event |
| Views.EventForFinds | BookByte/backend/app/core/views.py:182-185 | looking up an event's own pair finds that event |
| Views.EventTarget | BookByte/backend/app/core/views.py:166-179 | the lookups' answers, in order: missing `user_id` 400, unknown user 404, missing `paragraph_id` 400, an id `uuid.UUID` refuses 400 with `Invalid data: ` and its `ValueError` text, unknown paragraph 404; on success, the user holding the identifier and the paragraph the id parses to |
| Views.AssignFlags | BookByte/backend/app/core/views.py:188-195 | the four assignments compute the partial update `Apply`: each present flag key is overwritten and the others are kept |
| Views.SampleExists | BookByte/backend/app/core/views.py:307 | a sample of `n` distinct keys exists for every `n` up to the number of keys |
| Views.EntryFor | BookByte/backend/app/core/views.py:317-365 | an answer element holds the paragraph's key, content, book title and author, the per-flag event counts, and the user's flags (all false when the user has no event on it) |
| Views.EntryForDescribes | BookByte/backend/app/core/views.py:309-365 | the element built for a sampled paragraph describes it for the user the `user_id` query names |
| Views.PickSample | BookByte/backend/app/core/views.py:307 | `random.sample` gives `n` distinct paragraph keys |
| Views.BuildEntries | BookByte/backend/app/core/views.py:317-367 | the loop produces one element per sampled paragraph, in sample order, each describing its paragraph |
| Views.Store.constructor | BookByte/backend/app/core/models.py:4-49 | a new store is the empty, consistent database |
| Views.Store.BookListPost | BookByte/backend/app/core/views.py:12-25 | exact duplicate title and author gives 400; a missing key or an over-long field gives 500; otherwise 201, and exactly one book is added; every failure changes nothing |
| Views.Store.BookDetailGet | BookByte/backend/app/core/views.py:32-46 | 404 for an unknown id, otherwise the book's fields |
| Views.Store.BookDetailPut | BookByte/backend/app/core/views.py:48-64 | 404 for an unknown id; 400 when another book has the resulting title and author; 200 exactly when there is no clash and the fields fit, updating only that book; failures change nothing |
| Views.Store.BookDetailDelete | BookByte/backend/app/core/views.py:68-70 | the book is removed with its whole cascade; the database stays consistent |
| Views.Store.ParagraphListPost | BookByte/backend/app/core/views.py:74-84 | a missing or malformed `book_id` gives 500; an unknown book gives 404; 201 exactly when the book exists and content is given, adding exactly that paragraph |
| Views.Store.ParagraphDetailGet | BookByte/backend/app/core/views.py:91-102 | 404 for an unknown id, otherwise the paragraph's fields |
| Views.Store.ParagraphDetailPut | BookByte/backend/app/core/views.py:104-108 | only the content changes, and only when the body carries it |
| Views.Store.ParagraphDetailDelete | BookByte/backend/app/core/views.py:110-112 | the paragraph and its events are removed; the database stays consistent |
| Views.Store.UserListPost | BookByte/backend/app/core/views.py:117-126 | a taken identifier gives 400; a missing or over-long identifier gives 500; 201 exactly otherwise, adding one user; the identifier stays unique |
| Views.Store.UserDetailGet | BookByte/backend/app/core/views.py:133-143 | 404 for an unknown id, otherwise the identifier |
| Views.Store.UserDetailPut | BookByte/backend/app/core/views.py:145-155 | 400 when another user holds the resulting identifier; 200 exactly when it is free and fits, replacing only this user's identifier |
| Views.Store.UserDetailDelete | BookByte/backend/app/core/views.py:157-159 | the user and their events are removed; the database stays consistent |
| Views.Store.EventListPost | BookByte/backend/app/core/views.py:164-206 | lookup errors are answered unchanged; 201 exactly when the pair had no event, else 200 on the existing event; the flags become `Apply(old, body)`; afterwards the pair has exactly one event, holding the answered flags |
| Views.Store.PutBook | BookByte/backend/app/core/views.py:24 | storing a fitting book that duplicates no other keeps the store valid and changes only that row |
| Views.Store.PutParagraph | BookByte/backend/app/core/views.py:80-83 | storing a paragraph of an existing book keeps the store valid and changes only that row |
| Views.Store.PutUser | BookByte/backend/app/core/views.py:124 | storing a fitting, unique identifier keeps the store valid and changes only that row |
| Views.Store.SetFlags | BookByte/backend/app/core/views.py:197 | saving an event's flags keeps the store valid; the event still holds its pair |
| Views.Store.AddEvent | BookByte/backend/app/core/views.py:182-185 | creating the event of a pair that has none keeps the store valid; the pair then finds the new event |
| Views.Store.EventDetailGet | BookByte/backend/app/core/views.py:215-231 | 404 for an unknown id, otherwise the event's user, paragraph and flags |
| Views.Store.EventDetailPut | BookByte/backend/app/core/views.py:233-244 | only the flags whose keys the body carries change |
| Views.Store.EventDetailDelete | BookByte/backend/app/core/views.py:246-248 | exactly that event is removed |
| Views.Store.UserParagraphEvent | BookByte/backend/app/core/views.py:252-290 | non-GET gives 405; lookup errors as for events; otherwise 200 with the pair's event flags and id, or all four false and no id; nothing is created |
| Views.Store.RandomParagraphs | BookByte/backend/app/core/views.py:295-370 | non-GET gives 405; no paragraphs gives 404; otherwise min(5, n) elements with distinct paragraphs, each describing its paragraph for the named user |
| UserIdentity.JoinedGroupsAreValid | BookByte/frontend/app/src/lib/userIdentifier.ts:66-69 | five hexadecimal groups of 8-4-4-4-12 joined by hyphens pass `isValidUUID` |
| UserIdentity.ValidIsJoinedGroups | BookByte/frontend/app/src/lib/userIdentifier.ts:66-69 | conversely, every string that passes is such five groups joined by hyphens |
| UserIdentity.ValidUuidIsTrimmed | BookByte/frontend/app/src/lib/userIdentifier.ts:38-40 | a valid identifier is non-empty and unchanged by `trim()` |
| UserIdentity.PaddedUuidIsInvalid | BookByte/frontend/app/src/lib/userIdentifier.ts:66-69 | `isValidUUID` itself does not trim: leading or trailing white space fails it |
| UserIdentity.IdentityStore.constructor | BookByte/frontend/app/src/lib/userIdentifier.ts:1-7 | the store starts with whatever local storage holds under the key |
| UserIdentity.IdentityStore.GetUserId | BookByte/frontend/app/src/lib/userIdentifier.ts:6-16 | returns the stored identifier when it is non-empty; otherwise stores and returns the generated one; afterwards the store holds the result |
| UserIdentity.IdentityStore.ExportUserId | BookByte/frontend/app/src/lib/userIdentifier.ts:21-23 | behaves exactly as `getUserId` |
| UserIdentity.IdentityStore.ImportUserId | BookByte/frontend/app/src/lib/userIdentifier.ts:30-46 | the empty string is refused; then a trimmed form that is not a UUID is refused; a refusal leaves the store alone; success stores the trimmed input |
| UserIdentity.IdentityStore.HasUserId | BookByte/frontend/app/src/lib/userIdentifier.ts:51-53 | true exactly when the key is present, even if it holds the empty string |
| UserIdentity.IdentityStore.ClearUserId | BookByte/frontend/app/src/lib/userIdentifier.ts:58-61 | the key is absent afterwards |
| UserIdentity.GetUserIdIsStable | BookByte/frontend/app/src/lib/userIdentifier.ts:6-16 | two calls in a row return the same identifier, whatever the generator offers the second time |
| UserIdentity.ImportThenGet | BookByte/frontend/app/src/lib/userIdentifier.ts:30-46 | after a successful import, `getUserId` returns the trimmed input; after a refused one it returns the previous identifier |
| UserIdentity.ClearThenGet | BookByte/frontend/app/src/lib/userIdentifier.ts:51-61 | after clearing, `hasUserId` is false and `getUserId` returns a freshly generated identifier |
| UserIdentity.ExampleIdentifiers | BookByte/frontend/app/src/lib/userIdentifier.ts:66-69 | a standard UUID is accepted and `not-a-uuid` is refused |
| EventsApi.Or | BookByte/frontend/app/src/lib/eventsApi.ts:126 | `a \|\| b` picks `a` exactly when it is truthy |
| EventsApi.OrElse | BookByte/frontend/app/src/lib/eventsApi.ts:136-139 | the fallback is used exactly when the value is falsy; a non-empty fallback gives a non-empty result |
| EventsApi.CreateUser | BookByte/frontend/app/src/lib/eventsApi.ts:43-83 | never fails; 201 is a creation; a 400 counts as an existing user exactly when the body has an `identifier` or a `message` mentioning `already exists` or `unique`; a thrown error is caught |
| EventsApi.DuplicateAnswerIsARejection | BookByte/frontend/app/src/lib/eventsApi.ts:66-75 | the backend's duplicate answer, which carries `error` and not `message`, is classified as a plain rejection |
| EventsApi.PickIndex | BookByte/frontend/app/src/lib/eventsApi.ts:110 | `Math.floor(Math.random() * length)` is always a valid index |
| EventsApi.Transform | BookByte/frontend/app/src/lib/eventsApi.ts:123-153 | an element is accepted exactly when it has a truthy id and truthy text; the id and text fall back from `id` to `paragraph_id` and from `content` to `text`; title and author fall back to their placeholders |
| EventsApi.GetRandomParagraph | BookByte/frontend/app/src/lib/eventsApi.ts:88-158 | 404 or an empty array gives "No paragraphs available"; other failures give "Failed to fetch paragraph"; otherwise the result is the transform of some element of the array, or of the single object |
| EventsApi.BackendEntryIsAccepted | BookByte/frontend/app/src/lib/eventsApi.ts:126-153 | every element the backend sends with non-empty content is accepted, keeping its paragraph key, content and interactions |
| EventsApi.CreateOrUpdateEvent | BookByte/frontend/app/src/lib/eventsApi.ts:163-185 | succeeds exactly on a 2xx status, with the body; otherwise the answer's `error` or "Failed to update event" |
| EventsApi.DefaultInteraction | BookByte/frontend/app/src/lib/eventsApi.ts:215-224 | the default record is the pair with no id and all flags false |
| EventsApi.GetUserParagraphInteraction | BookByte/frontend/app/src/lib/eventsApi.ts:191-249 | a 404 or a network `TypeError` gives the default record; other failures throw `error` or "Failed to fetch event"; other thrown errors are rethrown; success gives the decoded record |
| EventsApi.BackendLookupErrorsReachClient | BookByte/frontend/app/src/lib/eventsApi.ts:213-230 | a backend lookup that finds no user or no paragraph (404) reaches the feed as all four flags off; a malformed paragraph id (400) is an error carrying the backend's message |
| ActionButtons.ServerAgreesWithClient | BookByte/frontend/app/src/components/ActionButtons.tsx:72-166 | the backend's `Apply` of the request body gives exactly the client's new flags, for each of the four buttons |
| ActionButtons.SettledExclusive | BookByte/frontend/app/src/components/ActionButtons.tsx:72-120 | after a successful like or dislike the two are never both set, and every toggle keeps that property |
| ActionButtons.ToggleTwice | BookByte/frontend/app/src/components/ActionButtons.tsx:72-166 | two successful toggles of a button restore its flag |
| ActionButtons.ReactionButtons.constructor | BookByte/frontend/app/src/components/ActionButtons.tsx:25-29 | the buttons start from `initialInteractions`, or all false, and idle |
| ActionButtons.ReactionButtons.Press | BookByte/frontend/app/src/components/ActionButtons.tsx:72-83 | a press while loading is dropped; otherwise it captures the negated flag, sets `loading` and sends the matching request; no flag changes yet |
| ActionButtons.ReactionButtons.Settle | BookByte/frontend/app/src/components/ActionButtons.tsx:84-94 | on success the captured value is applied; on failure nothing changes; `loading` ends false |
| ActionButtons.ReactionButtons.LoadInteractions | BookByte/frontend/app/src/components/ActionButtons.tsx:32-61 | a fetched record overwrites the four flags; a failed fetch changes nothing |
| ActionButtons.ReactionButtons.Toggle | BookByte/frontend/app/src/components/ActionButtons.tsx:72-166 | a whole handler run from idle: one request with the negated flag; on success the button's flag is flipped; on failure nothing changes |
| ParagraphCard.Split | BookByte/frontend/app/src/components/ParagraphCard.tsx:37 | `split(' ')` always gives at least one piece |
| ParagraphCard.JoinSplit | BookByte/frontend/app/src/components/ParagraphCard.tsx:37 | joining the pieces with spaces gives the author back |
| ParagraphCard.FirstCharsAreWordStarts | BookByte/frontend/app/src/components/ParagraphCard.tsx:36-41 | the split-map-join chain picks exactly the characters that start a word |
| ParagraphCard.WordStartsShape | BookByte/frontend/app/src/components/ParagraphCard.tsx:36-41 | the picked characters are never spaces and never more than the input |
| ParagraphCard.AuthorInitials | BookByte/frontend/app/src/components/ParagraphCard.tsx:36-41 | the initials are at most two: the first two upper-cased word starts of the author |
| ParagraphCard.WordStartsAppend | BookByte/frontend/app/src/components/ParagraphCard.tsx:36-41 | the scan of a concatenation is the scan of each part, the second resuming where the first left off |
| ParagraphCard.InitialsOfNames | BookByte/frontend/app/src/components/ParagraphCard.tsx:36-41 | a one-word author gets one initial; two words separated by spaces get both first letters, upper-cased, in order |
| ParagraphCard.Render | BookByte/frontend/app/src/components/ParagraphCard.tsx:27-41 | nothing is rendered exactly for empty text; the long-text box is used exactly above 200 UTF-16 code units; at most two initials |
| Text.Utf16Length | BookByte/frontend/app/src/components/ParagraphCard.tsx:33 | JavaScript's `length` lies between the number of characters and twice it: equal to it without astral characters, twice it when every character is astral |
| TrackEvent.Validate | BookByte/frontend/app/supabase/functions/track-event/index.ts:26-40 | accepted exactly when all three fields are non-empty and the type is one of the five; otherwise the 400 for missing fields or for an invalid type |
| TrackEvent.ValidationExamples | BookByte/frontend/app/supabase/functions/track-event/index.ts:34-40 | `copy` is accepted, `share` is refused as an invalid type, and an empty user id as a missing field |
| TrackEvent.HostedStore.constructor | BookByte/frontend/app/supabase/functions/track-event/index.ts:43-82 | the hosted tables start as given |
| TrackEvent.HostedStore.Handle | BookByte/frontend/app/supabase/functions/track-event/index.ts:11-91 | every answer has CORS headers; preflight gives 200; a bad body gives 500 and validation gives 400 with nothing stored; the user row is inserted when missing; the event row is appended exactly on 200; a failure after the user insert keeps that row |
| GutenbergUrl.EbookNumberFrom | BookByte/frontend/app/src/pages/Admin.tsx:396-402 | a captured number is a non-empty run of digits; none is captured only when no `/ebooks/` is followed by a digit |
| GutenbergUrl.TextUrlIsDirect | BookByte/frontend/app/src/pages/Admin.tsx:402-403 | the text address built from a book number is on the site and is a direct text address |
| GutenbergUrl.NormalizeUrl | BookByte/frontend/app/src/pages/Admin.tsx:367-403 | refusals in order: blank, unparsable, off-site, unknown form; accepted exactly when on-site and direct or `/ebooks/N`; a direct address is kept, otherwise it becomes the text address; the result is always a direct on-site address |
| GutenbergUrl.NormalizeIdempotent | BookByte/frontend/app/src/pages/Admin.tsx:367-403 | normalising a normalised address accepts it and keeps it unchanged |
| GutenbergUrl.EbookNumberOfPage | BookByte/frontend/app/src/pages/Admin.tsx:396-402 | the book-page address `/ebooks/N` captures exactly `N` |
| GutenbergUrl.EbookPageNormalized | BookByte/frontend/app/src/pages/Admin.tsx:390-403 | `https://www.gutenberg.org/ebooks/N` becomes `https://www.gutenberg.org/cache/epub/N/pgN.txt` |
| GutenbergUrl.ReplaceFirst | BookByte/frontend/app/src/pages/Admin.tsx:411 | a string starting with the pattern has that prefix replaced; a string without it is unchanged |
| GutenbergUrl.FetchPath | BookByte/frontend/app/src/pages/Admin.tsx:410-411 | for an on-site address, the fetched path is the proxy path followed by the address's path |
| BookMetadata.ContinuationEnd | BookByte/frontend/app/src/pages/Admin.tsx:38-43 | the lazy continuation lines stop within the header, at or after the current line end |
| BookMetadata.LinesCapture | BookByte/frontend/app/src/pages/Admin.tsx:38-43 | a title or author capture lies after the label, within the header |
| BookMetadata.DateEnd | BookByte/frontend/app/src/pages/Admin.tsx:46 | the release-date capture contains no `[` |
| BookMetadata.LineStart | BookByte/frontend/app/src/pages/Admin.tsx:50 | the language line starts on a non-line-feed character after the label |
| BookMetadata.CaptureAt | BookByte/frontend/app/src/pages/Admin.tsx:38-51 | a capture lies after the label; a date capture has no `[`, and a language capture has no line feed |
| BookMetadata.FirstMatch | BookByte/frontend/app/src/pages/Admin.tsx:38-51 | the leftmost match's capture keeps those same properties |
| BookMetadata.PlaceholderShape | BookByte/frontend/app/src/pages/Admin.tsx:39-51 | the four `Unknown …` placeholders are already trimmed and single-spaced, with no `[` or line feed |
| BookMetadata.Clean | BookByte/frontend/app/src/pages/Admin.tsx:39-51 | a cleaned value is trimmed; title and author are single-spaced; a date has no `[` and a language no line feed |
| BookMetadata.FieldValue | BookByte/frontend/app/src/pages/Admin.tsx:38-51 | every field value, captured or placeholder, has the cleaned shape |
| BookMetadata.ExtractBookMetadata | BookByte/frontend/app/src/pages/Admin.tsx:25-66 | nothing exactly when `*** START OF` is absent; otherwise the fields come from the text before its first occurrence, the source URL is kept, and the record is well shaped |
| BookMetadata.AbsentLabelGivesPlaceholder | BookByte/frontend/app/src/pages/Admin.tsx:39-51 | a field whose label does not occur takes its placeholder |
| BookMetadata.ReadsOnlyHeader | BookByte/frontend/app/src/pages/Admin.tsx:28-34 | text after the first marker, labels included, does not change the record |
| ReleaseDate.MonthTable | BookByte/frontend/app/src/pages/Admin.tsx:253-257 | twelve distinct month names, each with a two-digit code |
| ReleaseDate.MonthNumber | BookByte/frontend/app/src/pages/Admin.tsx:253-258 | a listed month gets its own code; a name the object inherits, such as `toString`, gets that member's rendering; any other name, including a lower-case month, gets `01` |
| ReleaseDate.InheritedRendering | BookByte/frontend/app/src/pages/Admin.tsx:258-259 | the rendering of an inherited member is longer than a month code |
| ReleaseDate.InheritedMonthIsRendered | BookByte/frontend/app/src/pages/Admin.tsx:246-260 | `toString 5, 2024` and the like put the member's rendering where the month code belongs, so the result is not a `YYYY-MM-DD` date |
| ReleaseDate.PadDay | BookByte/frontend/app/src/pages/Admin.tsx:259 | `padStart(2, '0')`: the day is kept at the end, with zeros in front up to two characters |
| ReleaseDate.FirstDateMatch | BookByte/frontend/app/src/pages/Admin.tsx:250 | a match has a non-empty month word, a digit run and a four-digit year; no match only when no start position matches |
| ReleaseDate.PublishedDate | BookByte/frontend/app/src/pages/Admin.tsx:246-260 | with no match it is `2024-01-01`; otherwise the match's year, month code and padded day joined by hyphens. The day keeps every digit `\d+` took, so the result is `YYYY-MM-D…` with a day of two or more digits; with an inherited month name it is not even that |
| ReleaseDate.WrittenDateMatches | BookByte/frontend/app/src/pages/Admin.tsx:250 | `Month D, YYYY` is matched at its start with exactly its three parts |
| ReleaseDate.WrittenDateConverts | BookByte/frontend/app/src/pages/Admin.tsx:246-260 | `January 5, 2024` and the like convert to `2024-01-05`, for every listed month |
| ReleaseDate.UnknownMonthIsJanuary | BookByte/frontend/app/src/pages/Admin.tsx:258 | a written date whose month is neither in the table nor inherited gets month `01` |
| Ingestion.FetchedText | BookByte/frontend/app/src/pages/Admin.tsx:425-437 | a failed status gives `Failed to fetch book: <status> <text>`; a body under 100 UTF-16 code units is refused; otherwise the body |
| Ingestion.FindFrom | BookByte/frontend/app/src/pages/Admin.tsx:446-450 | the index found is the first duplicate from the start position; none means there is no duplicate after it |
| Ingestion.FindExisting | BookByte/frontend/app/src/pages/Admin.tsx:446-450 | a book is found exactly when some listed book has the same source or the same title and author ignoring case; it is the first such book |
| Ingestion.PageFlagsBackendDuplicates | BookByte/frontend/app/src/pages/Admin.tsx:446-450 | every book the backend would refuse as an exact duplicate is already flagged by the page, when the page's list holds the stored books |
| Ingestion.ProcessGuard | BookByte/frontend/app/src/pages/Admin.tsx:96-110 | processing starts exactly with a fetched text, metadata, no flagged duplicate and a real API key; each failure gives its own message, in order |
| Ingestion.Substring | BookByte/frontend/app/src/pages/Admin.tsx:138 | `substring(a, b)` takes the text between the two positions, in whichever order they come |
| Ingestion.FirstNewlineOfSlice | BookByte/frontend/app/src/pages/Admin.tsx:140 | the first line feed of a slice is the first line feed of the text from the slice's start |
| Ingestion.SubstringsStrip | BookByte/frontend/app/src/pages/Admin.tsx:137-141 | the two substrings compute the text between the markers minus the marker's line |
| Ingestion.StripBoilerplate | BookByte/frontend/app/src/pages/Admin.tsx:130-141 | the cleaned text is `Stripped(bookData)`: the text is unchanged unless both markers occur |
| Ingestion.NoOccurrenceBefore | BookByte/frontend/app/src/pages/Admin.tsx:135 | a stretch ending at the first occurrence of a pattern does not contain it |
| Ingestion.StrippedEndsBeforeFooter | BookByte/frontend/app/src/pages/Admin.tsx:130-141 | when START comes first, the cleaned text is a stretch of the book ending right before the footer, and it holds no END marker |
| Ingestion.AcceptReply | BookByte/frontend/app/src/pages/Admin.tsx:198-237 | a truncated reply is refused first; otherwise the reply is accepted exactly when it has a paragraphs array, which is returned |
| Ingestion.BookRequest | BookByte/frontend/app/src/pages/Admin.tsx:246-277 | the request carries the metadata's title, author, language and source, and the converted release date, which has the `YYYY-MM-DD` shape unless its month names an inherited member |
| Ingestion.SaveBookError | BookByte/frontend/app/src/pages/Admin.tsx:279-292 | the message is never empty: the body's `error`, else the raw non-JSON body, else `Failed to save book: <status>` |
| Ingestion.DuplicateBookMessage | BookByte/frontend/app/src/pages/Admin.tsx:279-292 | the backend's duplicate refusal reaches the admin as its own message |
| Ingestion.Posts | BookByte/frontend/app/src/pages/Admin.tsx:314-323 | one request per paragraph, in order, each carrying the book id and that paragraph |
| Ingestion.BatchSizes | BookByte/frontend/app/src/pages/Admin.tsx:306-309 | every batch holds one to ten paragraphs |
| Ingestion.SaveParagraphs | BookByte/frontend/app/src/pages/Admin.tsx:305-333 | batches of ten, in order, flatten to the paragraphs sent; with no throw every paragraph is sent and counted; a throw stops after the failing batch has been sent whole |
| AdminPage.FetchOutcome | BookByte/frontend/app/src/pages/Admin.tsx:415-437 | a text is obtained exactly for a 2xx answer with at least 100 UTF-16 code units, and it is the body |
| AdminPage.Page.constructor | BookByte/frontend/app/src/pages/Admin.tsx:69-93 | the page starts empty, with the loaded books or an empty list when loading failed |
| AdminPage.Page.Submit | BookByte/frontend/app/src/pages/Admin.tsx:364-486 | a refused address or a failed fetch shows its error and changes nothing; otherwise the text is stored, the field cleared, the metadata and duplicate flag set, and the matching toast shown |
| AdminPage.Page.Load | BookByte/frontend/app/src/pages/Admin.tsx:440-475 | stores the text, clears the field and the processed book; with metadata, sets it and the first duplicate; without, keeps the previous metadata and flag and warns |
| AdminPage.Page.Process | BookByte/frontend/app/src/pages/Admin.tsx:95-362 | the guard, the completion check and the book save each end the action with their message and no change; on success the stripped text was sent, the book request built from the metadata, and the paragraphs saved |
| AdminPage.Page.SaveParagraphsAndFinish | BookByte/frontend/app/src/pages/Admin.tsx:305-352 | with no failed batch every paragraph is posted, the processed book recorded, the list reloaded (kept on failure) and the count announced; a failed batch shows its message and records nothing |

## Left out

- **Network.** Network I/O, `fetch` and the hosted database client are not modelled. Each call's
  answer, thrown error or store failure is an input of the operation that makes it.
- **OpenAI call.** The OpenAI client, its prompt and its model parameters are left out, along
  with the JSON extraction from the reply text (`Admin.tsx` 143-237). The reply is an input,
  already read: a paragraphs array, no array, or an error message.
- **`URL` constructor.** Whether it accepts an address is the input `parses`.
- **Fresh UUIDs.** `crypto.randomUUID()` and `uuid.uuid4()` are parameters: `generated` and
  `newId`.
- **Randomness.** `random.sample` is a nondeterministic choice of distinct keys.
  `Math.random()` is a real number in [0, 1).
- **Time.** Timers, `Date.now()`, processing-time display, `created_at` and `updated_at` are
  not modelled.
- **Concurrency.** `Promise.all` over a batch is modelled as sending the batch's requests in
  order. React state batching, ORM races and transactions are not modelled.
- **Copy button.** `handleCopy` (`ActionButtons.tsx` 63-70) writes to the clipboard and is not
  modelled.
- **Thin fetch wrappers.** `getAllBooks`, `getAllEvents`, `getEventById`, `updateEventById` and
  `deleteEventById` (`eventsApi.ts` 264-336) pass the answer through. Their results appear only
  as inputs: the admin page's book list.
- **Other view branches.** The list GET branches of the views and their unknown-method
  fall-through are not modelled. The detail handlers' id lookups assume a well-formed key; a
  malformed path id is refused by the URL router, which is not part of this model.
- **`__str__` methods.** The models' string renderings are not modelled.
- **Field validation.** `URLField` and `DateField` validation is not modelled. The publication
  date and the source are stored as given. Only the `max_length` bounds are modelled. The model
  assumes a database that enforces `varchar` lengths, so a value over a bound is the 500 answer;
  SQLite, Django's default, stores it instead, and the database in use is not part of this model.
- **JSX and toasts.** The markup and the timing of toasts are not modelled. The last toast of
  an action is its `Notice` result.
- **Character classes.** The regular-expression classes `\w` and `\d` and the case functions
  `toLowerCase`/`toUpperCase` are modelled on ASCII only; Unicode letters outside ASCII are left
  as they are. `\s` and `trim()` use JavaScript's full white-space set.
- PyUuid.ParseUuid: `int()` also accepts Unicode decimal digits, such as full-width `０`, which
  the model treats as non-digits. `repr` in its error text is modelled for ASCII, the C1
  controls, the soft hyphen and the white-space characters; any other non-ASCII character
  Python escapes (format, private-use and unassigned characters) is written as it is.
- Views.EventTarget: inherits the two `ParseUuid` gaps above for the 400 message and for which
  ids are accepted. A `paragraph_id` that is not a JSON string makes `uuid.UUID` raise an
  `AttributeError`, a 500; the model's bodies carry strings only.
- Views.Store.EventListPost, Views.Store.EventDetailPut: flag values are modelled as JSON
  booleans. The views assign whatever value the body carries. A number or a string such as
  `"True"` is echoed back as given, and a value `BooleanField` cannot convert, such as `"yes"` or
  `null`, makes the save fail with a 500.
- Views.Store.ParagraphListPost: `book_id` is modelled as a string. A JSON number is read by
  `UUIDField` as `UUID(int=…)`, which the model does not cover.
- Views.Store.UserParagraphEvent: the view is modelled with its two path arguments as the
  strings its body expects. Through the routes in `urls.py`, which are not part of this model,
  the `<uuid:…>` converters match only the hyphenated form and pass `UUID` objects. `uuid.UUID`
  of a `UUID` object raises an `AttributeError`, so a known user is answered with a 500 there.
  The client sends the paragraph id without hyphens, which no route matches, so its lookups are
  answered 404.
- ReleaseDate.UnknownMonthIsJanuary, ReleaseDate.PublishedDate, Ingestion.BookRequest: month `01`
  and the `YYYY-MM-DD…` shape are promised only for month names that `Object.prototype` does not
  supply. A name such as `toString` is found on the prototype and does not give `01`;
  `ReleaseDate.InheritedMonthIsRendered` states what it gives instead.
- ReleaseDate.InheritedRendering: renders a built-in function as V8 does,
  `function toString() { [native code] }`. Other engines lay out the same text with different
  white space.
- ParagraphCard.AuthorInitials, ParagraphCard.InitialsOfNames: `word[0]` takes one UTF-16 code
  unit. For a word starting with an astral character, such as `𝒜`, the source takes half of a
  surrogate pair. The model's strings hold whole characters, so it takes the whole character.
  `slice(0, 2)` is modelled over characters for the same reason.
- **`AdminPage.Page.Load`: metadata kept by design.** When a fetched text has no
  `*** START OF` marker, the previous book's metadata and duplicate flag are kept, because the
  page does not reset them there. The contract states this as behaviour; it is not a finding.
- **Backend flag exclusivity.** `Reactions.Exclusive`, liked and disliked never both set, is kept
  by the buttons (`ActionButtons.SettledExclusive`). The backend does not enforce it, so it is
  not a table invariant.
