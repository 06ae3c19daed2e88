# Todo API core in Dafny

A model of the request-handling core of a small authenticated to-do list
server (`index.js`): user registration and login against a `users`
collection, a bearer-token gate in front of the protected routes, and
per-user create/list/update/delete over a `todos` collection with
pagination. The database, password hashing and token signing are external
collaborators; the model keeps their documented contracts and nothing more.

Modules:

- `JsValues` (`jsvalues.dfy`): optional values (`undefined`/`null` as
  `None`), object identifiers, JavaScript falsiness of an optional string.
- `Pagination` (`pagination.dfy`): the page arithmetic of `GET /todos`,
  computed exactly on integers (`Math.ceil` of a float quotient becomes an
  exact ceiling division).
- `Todos` (`todos.dfy`): the todo records and the store queries the
  handlers issue: the owner filter, the id-and-owner match, the `$set` of
  title/date/done, removal, skip/limit, the record mapper, and the
  ownership-isolation lemmas.
- `Credentials` (`credentials.dfy`): users, the password hasher as a pair of
  functions (`Hasher`) of which only `compare(p, hash(p, salt))` is assumed,
  the email lookup, and the decisions of `/register` and `/login`.
- `AuthGate` (`authgate.dfy`): `authenticateJWT`. The token is the second
  field of `Authorization.split(" ")`; signing and verification with the
  fixed secret are a pair of functions (`Jwt`) whose assumed contract is
  `Sound`. A `Request` object whose `user` field the middleware sets.
- `Server` (`server.dfy`): a `Database` object holding `users`, `todos` and
  the identifier generator, with one method per handler, the response
  shapes and status codes, and two client methods that run the
  register-twice and create/list/update/delete scenarios.

Behaviour of `index.js` worth knowing when reading the model:

- Delete of a record that does not match the id and the caller executes
  `return res.status(404)` (index.js:195): the status is set, nothing is
  sent, and the request never completes. This is logged under Findings; the
  model's delete handler sends the 404.
- The gate accepts any scheme word in front of the token; only the second
  space-separated field is read (index.js:24, `AuthGate.SchemeIgnored`).
- After a rejected token the middleware sends 403 and does not return
  (index.js:29-35). This is logged under Findings; the model's gate stops
  at the 403.

## Model

| member | source | states |
|---|---|---|
| Pagination.PageSize | index.js:115 | the page size is the parsed `perpage` unless it is NaN or 0, in which case it is 10; it is never 0 and is positive for a non-negative parameter |
| Pagination.CeilDiv | index.js:120 | the result is the exact ceiling of count / pageSize for either sign of the divisor |
| Pagination.EffectivePage | index.js:121 | the page is never 0; NaN gives 1; a requested 0 gives 1; a page within range is kept; a page past the end is clamped to the last page; with no pages a non-negative request gives 1 |
| Pagination.Paginate | index.js:115-122 | no contract; the page size, page count, effective page and start offset together, characterised by PagesAreCeiling, EmptyCollectionWindow, WindowInRange and PastEndClamps |
| Pagination.PagesAreCeiling | index.js:115-120 | for a non-negative `perpage`, pages * pageSize >= count > (pages - 1) * pageSize, and pages is 0 exactly when count is 0 |
| Pagination.EmptyCollectionWindow | index.js:115-122 | with zero todos the listing has 0 pages, shows page 1 and starts at offset 0 |
| Pagination.WindowInRange | index.js:115-122 | with at least one todo and non-negative parameters, 1 <= page <= pages and 0 <= start < count |
| Pagination.PastEndClamps | index.js:120-122 | a requested page past the last page shows the last page, starting at (pages - 1) * pageSize |
| Todos.ToFrontend | index.js:42-49 | no contract; the record mapper `{id, title, date, done}` with `id` taken from `_id`, characterised by MapperHidesOwner |
| Todos.MapperHidesOwner | index.js:42-49 | the mapped record carries the id, title, date and done of the stored record and does not depend on its owner |
| Todos.OwnedBy | index.js:118 | the owner filter keeps exactly the records of that owner, and no more records than the store holds |
| Todos.OwnedByAppend | index.js:124-127 | filtering distributes over concatenation, so the owner's records keep store order |
| Todos.Matches | index.js:164-165 | no contract; the filter `{_id: id, user_id: owner}`, characterised by FindOwned and NonOwnerNotFound |
| Todos.FindOwned | index.js:162-166 | the match is the first record with both the id and the owner; None exactly when no record has both |
| Todos.SetFields | index.js:168-172 | no contract; `$set` of title, date and done on one record, characterised by UpdateIsolation and Lifecycle |
| Todos.Replaced | index.js:162-175 | no contract; the store after the update of one record, characterised by UpdateIsolation |
| Todos.Removed | index.js:193 | no contract; the store after `findOneAndDelete` of one record, characterised by RemoveIsolation and RemovedIsGone |
| Todos.NewTodo | index.js:148-149 | the inserted record has the fresh id, the caller as owner whatever `user_id` the body held, and the body's title, date and done (all absent when the body has no `todo`) |
| Todos.Slice | index.js:124-127 | skip/limit yields the contiguous run of at most `limit` records starting at `start`, non-empty when `start` is inside the collection |
| Todos.InsertIsolation | index.js:149-152 | an insert appends the record to its owner's listing and leaves every other owner's listing unchanged |
| Todos.UpdateIsolation | index.js:162-175 | an update keeps the record's id and owner, keeps the owner's count, and leaves every other owner's listing unchanged |
| Todos.RemoveIsolation | index.js:193 | a delete shortens the owner's listing by one and leaves every other owner's listing unchanged |
| Todos.NonOwnerNotFound | index.js:162-166 | a record that exists but belongs to another user is not matched, just like an unknown id |
| Todos.OwnerFinds | index.js:193 | with distinct ids the owner's match is the position of the record |
| Todos.RemovedIsGone | index.js:193 | after a delete no caller can match the id again and the ids stay distinct |
| Todos.Lifecycle | index.js:148-197 | create then update then delete restores the store; in between only the owner matches the record and the update sets its fields |
| Credentials.Hasher.Sound | index.js:74-94 | no contract; the assumed contract of bcrypt: a password is accepted by every hash made from it, used by RegisterThenLogin |
| Credentials.FindByEmail | index.js:67 | the lookup returns the first stored user with that email in store order, and None exactly when no stored user has it |
| Credentials.FindByEmailUnique | index.js:92 | with distinct emails the lookup returns the one user with that email |
| Credentials.DecideRegister | index.js:62-71 | a falsy email or password is a bad request; otherwise an existing email is a conflict; otherwise the non-empty email and password are inserted |
| Credentials.AppendKeepsUserIdsUnique | index.js:77-78 | appending a user under an identifier no stored user has keeps user identifiers distinct |
| Credentials.InsertKeepsUnique | index.js:67-78 | inserting a user whose email is not stored keeps emails distinct |
| Credentials.SecondRegisterConflicts | index.js:67-78 | registering an email that was just registered is a conflict whatever the password |
| Credentials.DecideLogin | index.js:87-96 | a falsy field is a bad request; an unknown email is refused; success returns the stored user with that email whose hash the hasher's compare accepts |
| Credentials.LoginIffPassword | index.js:92-96 | with distinct emails, login of a stored user succeeds exactly when compare accepts the password against its stored hash |
| Credentials.RegisterThenLogin | index.js:74-100 | for a sound hasher, after a register login with the same password authenticates the new user, and login with a password the new hash does not accept is refused |
| AuthGate.Word | index.js:24 | the first field of `split(" ")` is the longest space-free prefix of the header |
| AuthGate.SecondWord | index.js:24 | `split(" ")[1]` is absent exactly when the header has no space, and never contains a space |
| AuthGate.SecondWordOf | index.js:24 | the token is the second space-separated field, whatever the first field is and whatever follows |
| AuthGate.NoSpaceNoToken | index.js:24 | a header without a space has no second field |
| AuthGate.VerifyToken | index.js:26 | an absent or empty token is rejected before its signature is looked at |
| AuthGate.Gate | index.js:21-40 | 401 exactly when the header is missing or empty; 403 exactly when the header is present and the token does not verify; otherwise the identity is `{id, email}` of the verified payload |
| AuthGate.SchemeIgnored | index.js:22-26 | any space-free scheme word gives the same outcome as `Bearer` |
| AuthGate.MissingTokenForbidden | index.js:23-29 | a non-empty header with no space is forbidden |
| AuthGate.SignedTokenAccepted | index.js:26-34 | a token signed as login signs it passes the gate with identity `{id, email}` of its payload |
| AuthGate.AuthenticateJwt | index.js:21-40 | the middleware's outcome is the gate's; it sets `req.user` to the verified identity exactly when it proceeds and leaves it otherwise |
| AuthGate.GateSteps | index.js:27-38 | in the corrected gate the handler is reached exactly when the token verified, and every rejection is one terminal status |
| AuthGate.GateStepsAsWritten | index.js:21-40 | no contract; the middleware's steps as written, 403 followed by a TypeError, characterised by AsWrittenRunsPastForbidden and ForgedTokenExample |
| AuthGate.AsWrittenRunsPastForbidden | index.js:27-35 | as written, a rejected token is answered 403 and then faults; on every other request the code as written and the corrected gate agree |
| AuthGate.ForgedTokenExample | index.js:26-32 | the header `Bearer forged` under a verifier that rejects it sends 403 and then faults |
| Server.Rejection | index.js:29-38 | the gate's refusals are 401 Unauthorized and 403 Forbidden |
| Server.ValidateTokenResponse | index.js:55-57 | 200 with an empty body exactly when the gate lets the request through, otherwise the gate's status |
| Server.LogoutResponse | index.js:105-109 | 200 with the logout message exactly when the gate lets the request through, otherwise the gate's status |
| Server.Database.FreshId | index.js:78-152 | the identifier of an insert is one no stored todo and no stored user has |
| Server.Database.Register | index.js:59-81 | 400 or 409 leave both collections unchanged; 201 adds exactly one user with the email, the salted hash of the password and an identifier no stored user has; emails and user identifiers stay distinct |
| Server.Database.Login | index.js:84-103 | 400 for a falsy field; an unknown email and a wrong password give the same 401 body; success returns the token signed over `{id, email}` of the stored user |
| Server.Database.ListTodos | index.js:113-144 | the page lists the skip/limit slice of the caller's todos in store order, only records of the caller, at most pageSize of them, and at least one when the caller has any; meta is total, pages, pageSize and page |
| Server.Database.CreateTodo | index.js:147-155 | exactly one record is appended, under a fresh id and owned by the caller whatever the body says; nothing else changes; the response is the stored record with its id |
| Server.Database.UpdateTodo | index.js:157-187 | no `todo` in the body is 500 and no match is 404, both with the store unchanged; otherwise only the matched record's title, date and done are replaced and the response is its mapped form without the owner |
| Server.Database.DeleteTodo | index.js:190-198 | no match answers 404 (corrected, see Findings) and leaves the store unchanged; otherwise exactly the matched record is removed and returned in mapped form |
| Server.DeleteResponseAsWritten | index.js:194-197 | as written, no match sets 404 and sends nothing; a removed record is answered 200 with its mapped form |
| Server.DeleteResponse | index.js:194-197 | corrected: every answer is sent; no match is a 404 with the update handler's error text; a removed record is answered as written |
| Server.DeleteOfForeignRecordUnanswered | index.js:193-195 | deleting another user's record matches nothing, and as written no answer is sent while the corrected handler sends 404 |
| Server.RegisterTwice | index.js:59-81 | registering one email twice gives 201 and then 409 |
| Server.TodoRoundTrip | index.js:113-198 | a created todo is listed for its owner under a spoof-proof owner, is not found for another user, is listed with new fields after an update, and after a delete the list is empty and a second delete answers 404 |

## Left out

- Express plumbing: routing, CORS, body parsing, `app.listen` and logging are framework I/O. Requests arrive as already parsed values.
- MongoDB itself: the connection, query execution and `new ObjectId(...)`. Identifiers are opaque, handed out by a counter and distinct. A malformed id that makes `new ObjectId` throw is not modelled; in update it would give 500, in delete and list an unhandled fault.
- The store's natural order is modelled as the order of the sequence.
- bcrypt: hash and compare are a pair of functions (`Credentials.Hasher`); only that a password is accepted by its own hash is assumed. Which other passwords a hash accepts (bcrypt reads only the first 72 bytes of a password) is left open, so the refusal in `Credentials.RegisterThenLogin` is stated for a password the new hash does not accept. The cost factor is not modelled; the random salt is a parameter.
- jsonwebtoken: `sign` and `verify` with the hardcoded secret (index.js:10) are a pair of functions. `Sound` is their assumed contract. The `iat` claim and the string form of the id inside the token are not modelled.
- `parseInt` string parsing: query parameters arrive as `Option<int>`, with None for NaN.
- Server.Database.ListTodos: does not model the store's reaction to a negative skip or limit. Those come from a negative `perpage` or `page`. The method answers None for them.
- Concurrency: the async scheduling and the registration race between lookup and insert are not modelled. Handlers run one at a time.
- Floating point: `Math.ceil(count / pageSize)` is exact integer ceiling division.
- Body fields other than title, date, done and `user_id` are not modelled. That includes a client-supplied `_id` or `id`, which the source would store and which the mapper's first branch (index.js:44) would return. `null` and `undefined` are both None.
- The create response in the source uses the key `user_id` and also carries the `_id` that `insertOne` adds to the object. The model returns the stored record with its id.
- No store failure is modelled, including the rejected `findOneAndUpdate` that the update handler's `catch` answers with 500 (index.js:183-185); the model's 500 covers only a request body without `todo`. No top-level fault boundary is modelled either.

## Findings

| source | as written | input that shows it | evidently intended | confidence | as-written member | corrected member |
|---|---|---|---|---|---|---|
| index.js:27-35 | after `res.sendStatus(403)` the verify callback does not return; it goes on to read `decoded.id` with `decoded` undefined, which throws after the 403 has been sent | header `Bearer forged` with a token the verifier rejects | return after sending 403, so no handler code runs past the rejection | not executed; high | AuthGate.GateStepsAsWritten (lemmas AuthGate.AsWrittenRunsPastForbidden, AuthGate.ForgedTokenExample) | AuthGate.AuthenticateJwt (with AuthGate.Gate and AuthGate.GateSteps) |
| index.js:194-196 | when nothing matches, `return res.status(404)` sets the status and returns without sending, so the client never gets an answer | DELETE of another user's todo (or an unknown id) | send the 404, as the update handler does at index.js:179 | not executed; high | Server.DeleteResponseAsWritten (lemma Server.DeleteOfForeignRecordUnanswered) | Server.DeleteResponse (used by Server.Database.DeleteTodo) |
