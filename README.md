# Queue display service: the QueueDO request handler

This project models the `QueueDO` Durable Object of a ticket-calling
display (`do-worker/src/index.js`). A single object owns three pieces of
state:

- the **user table**: username to password hash, role and creation time,
  seeded with one admin and one staff account;
- the **session entries**: `"sess:" + token` to username, role and expiry;
- the **queue document** "state": `current`, `history`, `men`, `women`,
  `ticker`, `displayMessage`, `centerImage`.

`fetch` answers each request in one step. It seeds the storage, picks the
first route whose path and method match, resolves the bearer session, checks
the role, validates the body, then writes the new state. The model is a
Dafny class `Worker.QueueDO` with fields `users`, `sessions` and `stored`,
and one method per route. Each method is proved against pure functions
(`CallNext`, `Recall`, `ResetQueue`, `WithCenterImage`, `Resolve`, `Sweep`,
`Seed`, `CheckLogin`, `CheckNewUser`, `Insert`). What each route answers,
and the state it leaves, is one predicate per route (`NextAnswer`,
`ListAnswer`, ...). The route method, the dispatch after the session is read
(`Serve`, `ServeQueue`) and `Fetch` itself are all proved against the same
predicate. Lemmas state what the source promises about the pure functions.
Every method that changes state keeps the object invariant `Valid()`, and
`putState` accepts only well-formed documents:

- every user has the role "admin" or "staff";
- every stored session belongs to an existing user and carries that user's
  role;
- the stored document is well-formed: lists within their caps, lanes
  separated by gender, and `current` equal to the newest or second-newest
  history entry.

Modules:

- `Wrappers`: Option and Result.
- `JsText`: the JavaScript string built-ins the handler uses. This covers
  ECMAScript white space and line terminators, `trim`, `startsWith`, and
  ASCII case folding for the `i` flag.
- `Api`: role names, error codes and HTTP statuses.
- `Auth`: `mustRole`, the `Authorization` header pattern, and session
  lookup with expiry.
- `Users`: the user table, seeding, and the login and add-user checks.
- `QueueState`: the queue document and its transitions.
- `Worker`: the request, the reply, routing, and the `QueueDO` class.

Some facts about the handler that a reader might expect to be otherwise:

- A session with the wrong role gets `UNAUTHORIZED` with status 401. The
  handler has no 403 `FORBIDDEN` (`Api.Status`, and the role-gated ensures
  of `Worker.QueueDO.Serve`).
- Recall with fewer than two history entries answers ok with the unchanged
  `current`. The handler has no `NO_PREVIOUS` error.
- After a call, `history[0]` is the new ticket itself. Recall sets
  `current := history[1]` and does not reorder the history. So "call, then
  recall" brings back the previous `current` only when that was the newest
  history entry (`QueueState.CallThenRecall`). After an earlier recall it
  brings back the newest entry instead.
- Sessions last 7 days. The history is capped at 200 entries and each lane
  at 50.

## Model

| member | source | states |
|---|---|---|
| Api.Status | do-worker/src/index.js:140-286 | Every error status is a 4xx and never 403. 400 is sent exactly for MISSING_FIELDS, INVALID_IMAGE and INVALID_ROLE, 401 exactly for INVALID_LOGIN and UNAUTHORIZED, 409 exactly for USER_EXISTS, 404 exactly for NOT_FOUND. |
| Api.Code | do-worker/src/index.js:140-286 | Each error's `error` string is a non-empty run of upper-case words joined by `_`. |
| Api.CodesDistinct | do-worker/src/index.js:140-286 | No two errors share an `error` string. |
| Worker.StatusOf | do-worker/src/index.js:18-23 | A reply has status 200 exactly when it is not an error. |
| Worker.ErrorField | do-worker/src/index.js:140-286 | The envelope carries an `error` string exactly when the reply is a failure, and the string is never empty. |
| Worker.ErrorFieldDecidesStatus | do-worker/src/index.js:140-286 | Two replies with the same `error` field (or none) are sent with the same status. |
| Worker.RouteOf | do-worker/src/index.js:131-286 | The health route is reached exactly when the path is `/api/health`, whatever the method. Any other matched route is reached only by its own method and path. |
| Worker.RouteOfEndpoint | do-worker/src/index.js:131-286 | Every route's own method and path reach that route: no earlier test shadows a later one. |
| Worker.NotFoundExactly | do-worker/src/index.js:286 | NOT_FOUND is reached exactly when the path is not the health check and no route has the request's method and path. |
| Auth.MustRole | do-worker/src/index.js:104-109 | A role check passes exactly when there is a session and the required role is among those its role grants: admin grants admin and staff, staff grants staff, nothing else grants anything. |
| Auth.AdminIsSupersetOfStaff | do-worker/src/index.js:104-109 | Passing the admin gate implies passing the staff gate. The staff gate passes exactly for sessions whose role is admin or staff. Passing staff without passing admin means the role is staff. |
| Auth.MatchBearer | do-worker/src/index.js:90 | The group captured by `/^Bearer\s+(.+)$/i` is a non-empty suffix of the header with no line terminator. |
| Auth.MatchBearerIsGreedyMatch | do-worker/src/index.js:90 | The captured group is absent exactly when no white-space run after the scheme lets the pattern match. When present, it is the group left by the longest such run. |
| Auth.HeaderToken | do-worker/src/index.js:89-93 | The bearer token is the captured group, trimmed. When present it is non-empty, has no white space at either end and no line terminator, and the header matched the pattern. It is absent exactly when the pattern does not match or the captured group is all white space. |
| Auth.BearerRoundTrip | do-worker/src/index.js:89-93 | A header made of "Bearer" in any letter case, white space, a trimmed token with no line break, then any trailing white space without a line break gives back exactly that token. |
| Auth.Resolve | do-worker/src/index.js:94-101 | `readSession` returns a session exactly when a token was found, an entry is stored under it and the entry has not expired. The result is the stored entry together with its token. |
| Auth.Sweep | do-worker/src/index.js:94-99 | Reading a session removes at most the presented token's entry, and only when it has expired. Every other entry is kept unchanged. A token that was turned away is no longer stored. |
| Auth.SweepThenRevoke | do-worker/src/index.js:166-169 | Sweeping and then deleting the resolved token leaves the same table as deleting the presented token outright. |
| Auth.AcceptedUntilExpiry | do-worker/src/index.js:97 | A stored session with an expiry is accepted exactly up to and including its expiry instant. |
| Auth.ExpiredStaysRejected | do-worker/src/index.js:97-99 | A token turned away for expiry is not accepted again at any later time. |
| JsText.SkipSpace | do-worker/src/index.js:92 | The end of the white-space run starting at an index: every character in between is white space, and the character at the end is not. |
| JsText.SkipSpaceBack | do-worker/src/index.js:92 | The start of the white-space run ending at an index: every character in between is white space, and the one just before is not. |
| JsText.Trim | do-worker/src/index.js:92 | `trim` is empty exactly when the text is all white space. Otherwise neither end of the result is white space. It never adds a line terminator. |
| JsText.TrimPadded | do-worker/src/index.js:92 | Trimming a trimmed text padded with white space on both sides gives back exactly that text. |
| Users.Seed | do-worker/src/index.js:50-70 | Seeding adds exactly the missing default accounts, with their roles, hashed passwords and the current time, and leaves every existing row as it was. Valid roles stay valid. |
| Users.SeedIdempotent | do-worker/src/index.js:50-70 | Seeding a second time, at any later time, changes nothing. |
| Users.SeedKeepsSessionsOwned | do-worker/src/index.js:50-70 | Seeding keeps every stored session's user and role in place. |
| Users.CheckLogin | do-worker/src/index.js:138-150 | A login is refused as missing exactly when the trimmed username or the password is empty. It is refused as invalid exactly when the user is unknown or the password hash differs. Otherwise it is accepted, with the stored role. |
| Users.UniformLoginFailure | do-worker/src/index.js:142-150 | An unknown username and a wrong password give the same outcome. |
| Users.CheckNewUser | do-worker/src/index.js:265-274 | A new user is checked in order: missing fields, then an invalid role, then an existing name. The first failing check decides the error, and when none fails the trimmed name, password and role are accepted. |
| Users.Insert | do-worker/src/index.js:276-280 | Adding a user adds exactly one row, with the hashed password, the role and the current time, and keeps every other row. |
| Users.InsertKeepsInvariants | do-worker/src/index.js:270-280 | An accepted new user keeps every role valid and every session's owner in place. |
| QueueState.Prepend | do-worker/src/index.js:194-197 | `[item, ...s].slice(0, cap)` puts the item first and keeps the old entries in order, at most `cap` entries in all. |
| QueueState.CallNext | do-worker/src/index.js:190-197 | Calling a ticket makes it `current` and the newest history entry, and prepends it to its gender's lane. The other lane and the display fields are unchanged, and well-formedness is kept. |
| QueueState.CallAllHistory | do-worker/src/index.js:194 | After a run of calls the history holds the newest calls first, then the older entries, and never more than 200 entries. |
| QueueState.HistoryFullAfterManyCalls | do-worker/src/index.js:194 | After at least 200 calls the history is exactly the last 200 calls, newest first. |
| QueueState.CallAllWellFormed | do-worker/src/index.js:193-197 | Any run of calls keeps the document well-formed, and the last call ends up current. |
| QueueState.Recall | do-worker/src/index.js:207-212 | With fewer than two history entries recall changes nothing. Otherwise `current` becomes the second-newest entry and every other field is kept. |
| QueueState.CallCallRecall | do-worker/src/index.js:193-212 | Call A, call B, recall: A is current again, B stays the newest history entry and A the second. |
| QueueState.CallThenRecall | do-worker/src/index.js:193-212 | Call then recall restores the newest entry from before the call. That equals the previous `current` exactly when the previous `current` was the newest history entry. |
| QueueState.RecallIdempotent | do-worker/src/index.js:207-212 | Recalling twice is the same as recalling once. |
| QueueState.ResetQueue | do-worker/src/index.js:221-225 | Reset clears `current`, the history and both lanes, and keeps the ticker, the display message and the centre image. |
| QueueState.WithCenterImage | do-worker/src/index.js:240-249 | Setting or clearing the centre image changes that field alone. |
| QueueState.Initial | do-worker/src/index.js:75-83 | The default document has no current ticket, empty history, lanes, ticker and message, no centre image, and is well-formed. The same document is the fallback of `getState` (lines 113-116). |
| QueueState.ValidImage | do-worker/src/index.js:236 | An accepted centre image is present and consists of the prefix `data:image/` followed by the rest of the value. |
| QueueState.DataUrlAccepted | do-worker/src/index.js:236 | Every value that starts with `data:image/` is accepted, whatever follows it. |
| Worker.Listing | do-worker/src/index.js:257 | The listing's rows are one per user, with name, role and creation time and no hash. |
| Worker.TextLeqTotal | do-worker/src/index.js:257 | Any two creation times are ordered one way or the other by the text collation `ORDER BY` uses. |
| Worker.TextLeqTransitive | do-worker/src/index.js:257 | The text collation is transitive. |
| Worker.TextLeqReflexive | do-worker/src/index.js:257 | The text collation is reflexive. |
| Worker.InsertNewest | do-worker/src/index.js:257 | Placing a row into the sorted listing adds exactly that row and keeps every other. |
| Worker.InsertNewestKeepsOrder | do-worker/src/index.js:257 | Placing a row into a listing sorted by `created_at DESC` keeps it sorted. |
| Worker.FrontKeepsOrder | do-worker/src/index.js:257 | A row created no earlier than every row of a sorted listing may go first. |
| Worker.Document | do-worker/src/index.js:112-117 | `getState` returns the stored document, or the initial one when none is stored. It is well-formed whenever a stored document is. |
| Worker.QueueDO.PutState | do-worker/src/index.js:119-121 | `putState` stores the document and touches nothing else. Only well-formed documents are written, so the object invariant is kept. |
| Worker.QueueDO.EnsureSchema | do-worker/src/index.js:39-85 | `ensureSchema` seeds the user table, stores the initial document when none is stored, and leaves sessions alone. |
| Worker.QueueDO.ReadSession | do-worker/src/index.js:88-102 | `readSession` returns the resolved session for the header's token and deletes that entry only if it has expired. |
| Worker.QueueDO.LookupSession | do-worker/src/index.js:94-101 | The storage half of `readSession`: the resolved session, and the swept table. |
| Worker.QueueDO.Login | do-worker/src/index.js:136-163 | On missing or invalid credentials the route fails with the matching error and changes nothing. On success it stores exactly one session under the fresh token, with the user's name, role and a 7-day expiry, and returns them. |
| Worker.QueueDO.Logout | do-worker/src/index.js:166-170 | Logout always succeeds. Afterwards the presented token's entry is gone and every other entry is kept. |
| Worker.QueueDO.Next | do-worker/src/index.js:182-201 | Without a staff or admin session the route fails with UNAUTHORIZED. An empty trimmed number or gender fails with MISSING_FIELDS. Otherwise the stored document becomes `CallNext` of the old one with the new ticket, and the ticket is returned. |
| Worker.QueueDO.Prev | do-worker/src/index.js:204-215 | Without a staff or admin session the route fails with UNAUTHORIZED. Otherwise it answers with the recalled `current`, and writes the document only when there are two or more history entries. |
| Worker.QueueDO.ResetQueueRoute | do-worker/src/index.js:218-228 | Only an admin may reset the queue. The stored document becomes `ResetQueue` of the old one. |
| Worker.QueueDO.SetCenterImage | do-worker/src/index.js:231-244 | Only an admin may set the centre image. An absent, empty or non-`data:image/` value fails with INVALID_IMAGE and changes nothing; otherwise only the image field changes. |
| Worker.QueueDO.ClearCenterImage | do-worker/src/index.js:246-252 | Only an admin may clear the centre image, and only that field changes. |
| Worker.QueueDO.ListUsers | do-worker/src/index.js:255-259 | Only an admin gets the listing. It has as many rows as users, holds each user's row, and is sorted by `created_at DESC`. |
| Worker.QueueDO.AddUser | do-worker/src/index.js:262-283 | Only an admin may add users. The first failing check's error is returned with the table unchanged; when all checks pass exactly one row is inserted. |
| Worker.QueueDO.Fetch | do-worker/src/index.js:124-287 | After any request the default accounts and a document exist, and existing users are never changed. Only login can add a session, and only under the fresh token. NOT_FOUND is returned exactly for unmatched routes, and each gated route fails with UNAUTHORIZED exactly when the resolved session lacks the required role. For each route, the reply and the new state are those the route's own answer predicate gives. Health answers ok. Login is checked against the seeded users. Logout revokes the presented token. State returns the seeded document. Every other route answers for the session `readSession` resolves, with the document as seeded and the users as seeded. |
| Worker.QueueDO.Serve | do-worker/src/index.js:172-286 | After the session is read, each route gets its own answer predicate. The user listing is the sorted listing for an admin. Adding a user is the add-user check and insert. Every unmatched route answers NOT_FOUND. The sessions are left alone, users change only by adding one, and the role gates hold. |
| Worker.QueueDO.ServeQueue | do-worker/src/index.js:175-252 | The state route returns the stored (or initial) document and writes nothing. Call next, recall, reset, set image and clear image each answer and write as their own answer predicate says. Users and sessions are never touched. |

## Left out

- The worker entry that forwards every request to one named object instance (`do-worker/src/index.js:291-297`). It is platform routing; requests are taken one at a time, as the platform serialises them.
- SHA-256 hashing and random token generation (`do-worker/src/index.js:12-29`). The hash is a function parameter `hash` and the fresh token a parameter `token`; collisions and token reuse are not modelled.
- Clocks. `Date.now()` and `nowIso()` are the parameters `now` and `nowIso`, one instant per request. The source reads the clock separately at seeding, expiry check, login and call, which within one request differ only by elapsed time.
- HTTP and JSON handling: URL parsing, `request.json()` and building `Response` objects. A request arrives as an HTTP method, a path, an optional `Authorization` header and already parsed optional string fields; a body that fails to parse is a body with every field absent.
- Non-string JSON field values. A non-string `username` or `role` makes `.trim()` throw in the source; a number passed as `number` or `gender` is turned into its decimal text by `String(...)`. Body fields are modelled as optional strings only; for `image`, absent stands also for "not a string".
- The SQL statements and `ctx.storage` calls themselves. Tables and storage entries are Dafny maps and an optional document.
- Worker.QueueDO.Next: a body that parses to JSON `null` makes `body.number` throw, because the `.catch` covers only a body that fails to parse. The handler then ends with an uncaught error. The model has no such outcome: it treats the body as having no fields and answers MISSING_FIELDS.
- Worker.QueueDO.ListUsers: the `ORDER BY` is modelled as inserting the users one at a time into a sorted list. SQLite's sort algorithm is not modelled, and neither is the order of rows with equal `created_at`, which SQLite does not promise.
- Strings are sequences of Unicode characters; JavaScript's UTF-16 code units are not modelled, which matters only for characters outside the Basic Multilingual Plane.
- Password reset, user deletion, protection of the seeded admin, a `FORBIDDEN` response, `NO_PREVIOUS`, and ticker or display-message setters do not exist in this handler and are not modelled.
- `public/app.js`, `functions/upload.js` and the small forwarding functions under `functions/` are client code or I/O forwarding with no server logic, and are not part of this model.
