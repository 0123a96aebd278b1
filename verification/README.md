# Message board API, modelled in Dafny

This project models the request handlers of an anonymous message board
(`routes/api.js`). Each board is a MongoDB collection of threads. A thread
holds a text, a creation time, a bump time, a bcrypt hash of its delete
password, a `reported` flag and a list of replies. Each reply carries its own
id, text, creation time, password hash and `reported` flag. The model
covers:

- the eight handlers of `/api/threads/:board` and `/api/replies/:board`;
- the required-field check `errorMessage`;
- the `pre('save')` hook that recomputes `bumped_on`;
- `getModel`, which gets or creates a board's collection.

The model is functional. The database is a `Store`, a map from board name
to a sequence of threads. Each handler is a pure function from the store and
the request fields to a `Step`: the response together with the next store.
Things the handlers take from the outside world become parameters:

- the clock is `now`;
- a fresh ObjectId is `id` / `replyId`;
- the bcrypt hash of a new password is `hash`;
- `bcrypt.compareSync` is `verify`, an arbitrary function `(password, hash) -> bool`.

A request field that is absent and one that is the empty string are both
falsy in JavaScript. Both are modelled as `""`.

Modules:

- `wrappers.dfy` — `Option`.
- `schema.dfy` — threads, replies, the store, the save hook, lookups by id, and the store invariant `Valid`. `Valid` says that in every board the thread ids are distinct and every thread's `bumpedOn` is what the hook computes.
- `validation.dfy` — `errorMessage`.
- `listing.dfy` — the projections the two GET routes return, and the "ten most recently bumped" listing.
- `api.dfy` — the eight handlers.
- `properties.dfy` — lemmas relating the handlers: invariant preservation, idempotence, what a successful call implies, what later reads see.
- `scenario.dfy` — the messages the repository's functional tests expect (`tests/2_functional-tests.js`), and a full create / reply / redact / delete session.

## Model

| member | source | states |
|---|---|---|
| Schema.LatestStamp | routes/api.js:38-42 | the fold over the replies yields a value no earlier than the start and no earlier than any reply's creation time, and it is one of those times: it is their maximum |
| Schema.PreSave | routes/api.js:33-44 | the hook changes only `bumpedOn`. It becomes the maximum of the thread's and its replies' creation times, so it is at least each of them and equal to one of them |
| Schema.LatestStampAppend | routes/api.js:38-42 | after one more reply is added, the bump time is the later of the old bump time and the new reply's creation time |
| Schema.LatestStampOnlyReadsTimes | routes/api.js:38-42 | the hook reads only creation times: reply lists with the same times give the same bump time |
| Schema.IndexOf | routes/api.js:196 | returns the first position holding the id; returns `None` exactly when the id does not occur |
| Schema.FindThread | routes/api.js:196 | `findById` finds the thread that has the id and no earlier thread has it; it finds nothing exactly when no thread of the board has the id |
| Schema.FindReply | routes/api.js:318 | the positional `replies.$` match is the first reply with the id; nothing matches exactly when no reply has it |
| Validation.Missing | routes/api.js:90-95 | a field is reported exactly when it is listed and absent or empty; never more entries than fields |
| Validation.Join | routes/api.js:98 | `join` of no parts is empty, of one part is that part with no separator, and of two or more starts with the first part and the separator |
| Validation.ErrorMessage | routes/api.js:89-101 | no error exactly when every listed field is present; otherwise `'invalid '` followed by the names of the missing fields joined by `', '` |
| Validation.MissingAppend | routes/api.js:91-95 | fields are checked one at a time in order: checking a concatenated list gives the concatenated results, so order is kept and nothing is added or dropped |
| Validation.MissingAllAbsent | routes/api.js:91-95 | when no field is present, every field is reported, in the given order |
| Validation.MissingNonePresent | routes/api.js:91-95 | when every field is present, nothing is reported |
| Validation.MissingIsOne | routes/api.js:91-95 | when exactly one field is missing, it alone is reported |
| Validation.OneMissing | routes/api.js:97-99 | a single missing field gives `'invalid <field>'` with no separator |
| Listing.ViewThread | routes/api.js:22-29 | a fetched thread keeps id, text, both times, and every reply's id, text and time, in order. Password hashes and `reported` flags are not selected |
| Listing.LastN | routes/api.js:173 | `slice(-n)` keeps the last `min(n, length)` elements in their original order for `n >= 1`; `slice(-0)` keeps the whole array |
| Listing.Summarize | routes/api.js:156-166 | a listed thread keeps id, text and times. `replycount` is the true number of replies. Its replies are the last `min(3, n)` stored replies, in order, without hash or flag |
| Listing.Insert | routes/api.js:167 | inserting into a newest-first list keeps it newest first and adds exactly that thread |
| Listing.SortByBump | routes/api.js:167 | the `$sort` stage orders by `bumped_on`, latest first, and its output is a permutation of the board |
| Listing.PrefixIsNewest | routes/api.js:167-168 | cutting a newest-first list keeps the order, and nothing cut off is newer than anything kept |
| Listing.TopThreads | routes/api.js:167-168 | keeps `min(10, n)` distinct threads of the board, latest first; every thread left out was bumped no later than every thread kept |
| Listing.ListRecent | routes/api.js:155-175 | the listing holds `min(10, n)` entries, ordered by bump time. Each entry summarizes a thread of the board. A thread whose summary is not listed is no newer than any listed one. The entries are the summaries of a sub-multiset of the board's threads, so no thread is listed twice |
| Api.Collection | routes/api.js:73-87 | an existing board reads as its stored threads; a board that does not exist yet reads as an empty collection |
| Api.SetReply | routes/api.js:326 | the positional `$set` replaces exactly reply `j` of thread `i`. Other threads and replies stay as they were, and so does the thread's own data, including `bumpedOn` |
| Api.ThreadPostErrors | routes/api.js:124-128 | the check passes exactly when board, text and password are all present |
| Api.ThreadDeleteErrors | routes/api.js:187-191 | the check passes exactly when board, thread id and password are all present |
| Api.ThreadPutErrors | routes/api.js:222-226 | the check passes exactly when board and thread id are present |
| Api.ReplyPostErrors | routes/api.js:252-256 | the check passes exactly when board, thread id, text and password are all present |
| Api.ReplyDeleteErrors | routes/api.js:309-313 | the check passes exactly when board, thread id, reply id and password are all present |
| Api.ReplyPutErrors | routes/api.js:345-349 | the check passes exactly when board, thread id and reply id are present |
| Api.CreateThread | routes/api.js:119-143 | a missing field gives 400 with the validator's message as the body and no change. A thread id already on the board is rejected by the unique `_id` index and changes nothing. Otherwise the board gains one thread at the end, with `bumpedOn == createdOn == now`, no replies and `reported == false`, and the client is redirected to the board. Other boards are untouched |
| Api.ListThreads | routes/api.js:144-181 | no board gives 400 `invalid board`. Otherwise the response is exactly the board's recent listing: `min(10, n)` summaries of the board's threads, newest first, with nothing left out newer than anything listed. The store is not touched |
| Api.GetThread | routes/api.js:284-302 | no board gives 400. No thread with the id, or no id at all, gives `null`. Otherwise the response is the thread with that id, without hashes or flags |
| Api.DeleteThread | routes/api.js:182-217 | missing fields give 400 with the validator's message as the body and no change. An unknown id gives 404 with the thread message. A password the thread's own hash rejects gives 400 `incorrect password`. None of these changes the store. Otherwise exactly that thread is removed and the rest of the board keeps its order |
| Api.ReportThread | routes/api.js:218-243 | missing fields give 400 with the validator's message as the body and no change. An unknown id gives 404 with the thread message and changes nothing. Otherwise only that thread's `reported` becomes true: no other field changes and no other thread or board changes |
| Api.AppendReply | routes/api.js:246-283 | missing fields give 400 with the validator's message as the body and no change. A missing thread is an error and nothing is saved. Otherwise the thread's replies become the old replies plus the new reply, which has the fresh id, the text, `now`, the hash and `reported == false`. The thread is saved through the hook. When the stored bump time is the one the hook computed (true in every `Valid` store), the new bump time is the later of the old one and `now`. Other threads and boards are untouched |
| Api.RedactReply | routes/api.js:303-339 | missing fields give 400 with the validator's message as the body and no change. No such thread, or no such reply in it, gives 404 with the reply message. The password is checked against the reply's own hash. On success only that reply's text becomes `[deleted]`: its other fields, the other replies and the thread's `bumpedOn` stay |
| Api.ReportReply | routes/api.js:340-376 | missing fields give 400 with the validator's message as the body and no change. The thread is checked first: a missing thread gives the thread message even when the reply is missing too. A missing reply gives the reply message. Otherwise only that reply's `reported` becomes true |
| Properties.BumpBounds | routes/api.js:38-42 | in a valid store every thread's bump time is at least its own and each reply's creation time |
| Properties.RemovePreservesWellFormed | routes/api.js:204 | removing a thread keeps ids distinct and every thread saved |
| Properties.ReplacePreservesWellFormed | routes/api.js:230 | replacing a thread by a saved one with the same id keeps the board well formed |
| Properties.AddPreservesWellFormed | routes/api.js:130-133 | adding a saved thread with a new id keeps the board well formed |
| Properties.OneBoardPreservesValid | routes/api.js:73-87 | a step that touches one board and leaves it well formed keeps the store valid |
| Properties.SameTimesStaySaved | routes/api.js:326 | a positional update that keeps reply creation times leaves the stored `bumped_on` correct, although the hook does not run |
| Properties.CreatePreservesValid | routes/api.js:119-143 | creating a thread keeps the store valid |
| Properties.DeletePreservesValid | routes/api.js:182-217 | deleting a thread keeps the store valid |
| Properties.ReportThreadPreservesValid | routes/api.js:218-243 | reporting a thread keeps the store valid |
| Properties.AppendPreservesValid | routes/api.js:246-283 | appending a reply keeps the store valid |
| Properties.RedactPreservesValid | routes/api.js:303-339 | redacting a reply keeps the store valid |
| Properties.ReportReplyPreservesValid | routes/api.js:340-376 | reporting a reply keeps the store valid |
| Properties.DeletedThreadIsGone | routes/api.js:204 | after a successful delete the thread can no longer be fetched and is not in the listing |
| Properties.RemovedIdIsAbsent | routes/api.js:204 | with distinct ids, removing a thread removes its id from the board |
| Properties.UnknownIdIsNotListed | routes/api.js:155-175 | the listing shows only ids that are on the board |
| Properties.FindThreadReadsIds | routes/api.js:196 | a thread lookup depends only on the sequence of ids |
| Properties.FindReplyReadsIds | routes/api.js:318 | a reply lookup depends only on the sequence of reply ids |
| Properties.AppendedIsFound | routes/api.js:130-133 | a thread appended under a new id is found at the end |
| Properties.CreatedThreadIsFound | routes/api.js:130-139 | a thread just created can be fetched at once: no replies, and `bumped_on == created_on == now` |
| Properties.RedactSucceeds | routes/api.js:318-326 | when the thread and reply exist and the reply's hash accepts the password, the redaction is the positional `$set` of the text |
| Properties.RedactSuccessInversion | routes/api.js:318-326 | a successful redaction means every field was present, the thread and reply were found, and the reply's hash accepted the password |
| Properties.SetReplyKeepsLookups | routes/api.js:326 | rewriting a reply in place keeps every id, so later lookups find the same thread and reply |
| Properties.SetReplyUnchanged | routes/api.js:326 | writing a reply back unchanged leaves the board as it was |
| Properties.RedactIsIdempotent | routes/api.js:303-339 | redacting a reply again with the same password succeeds and changes nothing more |
| Properties.RedactAgain | routes/api.js:318-326 | a second redaction of a redacted reply with the accepted password finds it at the same positions and returns the same response and store |
| Properties.ReportThreadIsIdempotent | routes/api.js:218-243 | reporting a thread twice gives the same response and store as reporting it once |
| Properties.ReportThreadAgain | routes/api.js:228-236 | a second report of a found thread finds it at the same position and returns the same response and store |
| Properties.ReportReplySucceeds | routes/api.js:354-369 | when thread and reply exist, the report is the positional `$set` of `reported` |
| Properties.ReportReplySuccessInversion | routes/api.js:354-369 | a successful reply report found both the thread and the reply |
| Properties.ReportReplyIsIdempotent | routes/api.js:340-376 | reporting a reply twice gives the same response and store as reporting it once |
| Properties.ReportReplyAgain | routes/api.js:357-369 | a second report of a found reply finds it at the same positions and returns the same response and store |
| Properties.RedactIgnoresThreadPassword | routes/api.js:324 | changing the thread's password hash does not change the redaction outcome: only the reply's hash is consulted |
| Scenario.JoinTwo | routes/api.js:98 | `join(', ')` of two names puts one separator between them |
| Scenario.JoinThree | routes/api.js:98 | `join(', ')` of three names puts a separator between each pair |
| Scenario.AllButFirstMissing | routes/api.js:89-101 | when only the first field is present, the message names all the others in order |
| Scenario.LastTwoMissing | routes/api.js:89-101 | with two of three fields missing, both are named, comma-separated |
| Scenario.LastThreeMissing | routes/api.js:89-101 | with three of four fields missing, all three are named in order |
| Scenario.ThreadPostMessageText | tests/2_functional-tests.js:25-36 | a thread post without text gets `invalid text` |
| Scenario.ThreadPostMessagePassword | tests/2_functional-tests.js:38-49 | a thread post without password gets `invalid delete_password` |
| Scenario.ThreadPostMessageBoth | tests/2_functional-tests.js:51-60 | a thread post with neither gets `invalid text, delete_password` |
| Scenario.CreateThreadMissingFields | routes/api.js:124-128 | those three posts answer 400 with those messages and store nothing |
| Scenario.ThreadDeleteMessage | tests/2_functional-tests.js:141-148 | a thread delete with no id and no password gets `invalid thread_id, delete_password` |
| Scenario.DeleteThreadMissingFields | routes/api.js:187-191 | that delete answers 400 and changes nothing |
| Scenario.ReplyPutMessage | tests/2_functional-tests.js:370-377 | a reply report with no ids gets `invalid thread_id, reply_id` |
| Scenario.ReportReplyMissingFields | routes/api.js:345-349 | that report answers 400 and changes nothing |
| Scenario.ReplyPostMessage | tests/2_functional-tests.js:282-289 | a reply post with nothing but the board gets `invalid thread_id, text, delete_password` |
| Scenario.AppendReplyMissingFields | routes/api.js:252-256 | that post answers 400 and changes nothing |
| Scenario.SessionCreate | routes/api.js:130-138 | the first thread of a new board creates the board and redirects to it |
| Scenario.SessionList | routes/api.js:155-175 | a board with one thread lists exactly that thread's summary |
| Scenario.SessionReply | routes/api.js:267-278 | a reply to a fresh thread becomes its only reply and bumps it to the reply's time |
| Scenario.SessionRedactWrong | routes/api.js:320-329 | the wrong password does not redact the reply |
| Scenario.SessionRedactRight | routes/api.js:320-326 | the reply's password redacts it in place |
| Scenario.SessionDelete | routes/api.js:198-207 | the wrong password keeps the thread; the right one leaves the board empty |
| Scenario.SessionGet | routes/api.js:292-298 | a thread on the board is returned; on an empty board, `null` |
| Scenario.SessionReadReply | routes/api.js:292-298 | a replied thread is returned with its reply and its new bump time |
| Scenario.SessionOpen | routes/api.js:119-143 | a new board gets its first thread and that thread a reply: each step's response and the store after it |
| Scenario.SessionClose | routes/api.js:303-339 | wrong passwords change nothing; the right ones redact the reply and then delete the thread, which can no longer be fetched |
| Scenario.SpelledText | routes/api.js:98 | the one-field message spelled out for `text` |
| Scenario.SpelledPassword | routes/api.js:98 | the one-field message spelled out for `delete_password` |
| Scenario.SpelledTextPassword | routes/api.js:98 | the two-field message spelled out for text and password |
| Scenario.SpelledThreadIdPassword | routes/api.js:98 | the two-field message spelled out for thread id and password |
| Scenario.SpelledThreadIdReplyId | routes/api.js:98 | the two-field message spelled out for thread and reply ids |
| Scenario.SpelledThreadIdTextPassword | routes/api.js:98 | the three-field message spelled out for thread id, text and password |

## Left out

- bcrypt (`generateHash`, `validPassword`): hashing is salted and not deterministic, so the new hash is a parameter and the comparison is the parameter `verify`. Nothing is claimed about hash strength or timing.
- The clock and ObjectId generation (`new Date()`, `mongoose.Types.ObjectId()`): these are the parameters `now`, `id` and `replyId`. The hook's "set `created_on` if unset" branch is folded in: a new thread is built with `createdOn == now`.
- The schema default `created_on: new Date()` for replies: it is always overridden by the explicit timestamp.
- `getCollections` and its `system.indexes` filter: the store is a map, and the lookup in `Collection` is by exact name.
- MongoDB's `CastError` for thread or reply ids that are not well-formed ObjectIds: ids are plain strings here.
- Thread ids are compared as strings. The code casts `thread_id` to an ObjectId before every lookup and write, so the same id in upper-case hex, or a 12-character string read as raw bytes, finds the same thread; the model reports such an id as not found. Reply ids are strings in the schema, so exact matching is right for them.
- Errors from the database itself, and the generic `.catch` paths that send raw errors or a 500: the one reachable case, appending to a missing thread, is `RawError` with the store unchanged. Creating a thread whose id is already taken is modelled the same way.
- Concurrency: each handler is one atomic step. The read-then-write races in delete and in both reports are not modelled.
- Ties in the listing: threads with equal `bumped_on` may come out in any order. The insertion sort used here picks one order, and no contract relies on which.
- Redact and report-reply look up the thread and then the reply, where the code uses one combined query (`{_id: thread_id, 'replies._id': reply_id}`). The two agree because thread ids are unique (`Valid`).
- `Listing.SortByBump`: it states order and permutation, not which of several equally bumped threads comes first, because the code does not fix that.
- The commented-out `generatePassword`, and the Express routing and response plumbing. Responses are the `Response` datatype.
- `Scenario.SessionOpen` and `Scenario.SessionClose` cover a board's life in two halves. No single lemma chains all six steps.

## Behaviour of the code worth noting

- Listing ties: the aggregation sorts on `bumped_on` alone (routes/api.js:167), so threads with equal bump times come out in no fixed order. The model leaves that order open.
- Posting a reply to a missing thread: `findById` yields `null`, reading `thread.replies` then throws, and the catch sends the raw error with no status (routes/api.js:267-282). This is `RawError`, with nothing saved.
- Redacting a reply: one query looks for the thread and the reply together, so a missing thread and a missing reply give the same reply message (routes/api.js:318-322).
- Reporting a reply: the thread is checked first, so a missing thread gives the thread message even when the reply is missing too (routes/api.js:352-368).
