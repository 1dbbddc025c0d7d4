# Friend requests: a verified model

This project models the friend-relationship handlers of a chat application's server
(`server/controllers/FriendRequestsControllers.js`): sending, rejecting and accepting a
friend request, listing the pending requests, and searching among them. Each user record
carries an `id`, an `email`, display fields, and two lists of email strings:
`friendRequests` (pending incoming requests) and `friends` (confirmed friends).

The document store is a `map<Email, User>` plus an index `map<UserId, Email>`, held by the
class `FriendRequests.Directory`. `findById` and `findOne({ email })` are lookups in those
maps; every `save()` and the `findOneAndUpdate` of create are writes to the map. The
caller's id, which the token middleware puts on the request, is a parameter of each
handler. A string field tested with `!field` is an `Option<string>`, and absent, null and
the empty string all count as missing. Search's candidate list is an `Option<seq<Email>>`
that is missing only when absent or null: an empty list passes the test.

Modules:

- `Lists` (lists.dfy): `includes`, `filter(e => e !== x)`, push-if-absent / `$addToSet`, and
  `slice().reverse()` over lists, with their properties.
- `Patterns` (patterns.dfy): the escaping of the search term, the meaning of an escaped
  pattern (the literal text it stands for), and case-insensitive containment.
- `Users` (users.dfy): the user record, the projected record returned by list, the reply
  shape (status with body, or status with `error`).
- `FriendRequests` (friend_requests.dfy): the directory class and the five handlers.
  Create, reject and accept are methods that update the directory. Each is proved equal to
  a function of the old records (`AfterRequest`, `AfterReject`, `AfterAccept`), and lemmas
  state what those writes mean. List and search only read, so they are functions.
- `Scenarios` (scenarios.dfy): calls in sequence (a request sent twice, a request sent then
  accepted, an accept repeated, a reject of an unknown email) and what follows from the
  handlers' contracts.

Every handler's contract states the order in which its guards fire and that a failed guard
writes nothing. It states the exact new directory, and that the directory stays
consistent. It also states when duplicate-freedom is kept: if every `friendRequests` and
`friends` list was duplicate-free before the call, all of them still are after it, for every
call except a user accepting a request from their own email (below).

Each `save()` sets the lists the handler reassigned and appends to the stored array what the
handler pushed onto its in-memory copy, which is how the store applies an in-memory `push`.

Behaviour of the code worth noting:

- Duplicate requests and existing friendships are refused with status 400.
- The `target` in create's reply is the record as read before the update. It is not
  the updated record.
- Accept does not check that the friend's record exists. When the pending entry is there but
  no user has that email, it fails with status 500 (the runtime's null-dereference message)
  and persists nothing.
- Search does not look up the caller.
- Create has no check against a user's own email, so a user can send a request to
  themselves. Accepting it reads the one record twice, as caller and as friend, and pushes
  the email onto both copies. Both saves append, so the email ends up twice in that user's
  `friends` (`FriendRequests.SelfAcceptDuplicates`).

## Model

| member | source | states |
|---|---|---|
| Users.Present | server/controllers/FriendRequestsControllers.js:11 | definition of the `!field` test on a string field: present means given, not null and not the empty string (also at lines 69, 108 and 196); the handlers' guard clauses state their replies in terms of it |
| Users.ProfileIgnoresRelations | server/controllers/FriendRequestsControllers.js:173 | the `select` projection hides the relation lists: records differing only in `friendRequests` and `friends` project to the same profile |
| Lists.Without | server/controllers/FriendRequestsControllers.js:84-86 | filtering removes every occurrence of the email, keeps exactly the other elements with their multiplicities |
| Lists.WithoutAppend | server/controllers/FriendRequestsControllers.js:129-131 | filtering distributes over concatenation, so the remaining entries keep their relative order |
| Lists.WithoutAbsent | server/controllers/FriendRequestsControllers.js:84-86 | filtering out an email that is not in the list leaves the list unchanged |
| Lists.WithoutNoDup | server/controllers/FriendRequestsControllers.js:129-131 | filtering keeps a duplicate-free list duplicate-free |
| Lists.AddIfAbsent | server/controllers/FriendRequestsControllers.js:133-134 | push-if-absent / `$addToSet`: the email is present afterwards, the old list is a prefix, the list grows by at most one, an added email occurs exactly once, duplicate-freedom is kept |
| Lists.Pushed | server/controllers/FriendRequestsControllers.js:133-134 | what push-if-absent appends is the email or nothing, and appending it gives exactly the push-if-absent list |
| Lists.Reverse | server/controllers/FriendRequestsControllers.js:175-177 | the reversed copy has the same length and entry i is entry len-1-i of the original |
| Patterns.Escape | server/controllers/FriendRequestsControllers.js:201 | escaping at most doubles the term and leaves a term without metacharacters unchanged |
| Patterns.Literal | server/controllers/FriendRequestsControllers.js:202 | the literal text a pattern of plain characters and escaped metacharacters stands for is no longer than the pattern; other patterns are not interpreted |
| Patterns.EscapeIsLiteral | server/controllers/FriendRequestsControllers.js:201-202 | the escaped term is a pattern that stands for exactly the literal term |
| Patterns.LiteralIsEscape | server/controllers/FriendRequestsControllers.js:201-202 | conversely, any pattern of plain characters and escaped metacharacters that stands for a text is that text escaped |
| Patterns.ContainsFolded | server/controllers/FriendRequestsControllers.js:212-214 | the left-to-right scan succeeds exactly when the text occurs at some position, up to case |
| Patterns.Matches | server/controllers/FriendRequestsControllers.js:212-222 | the store's case-insensitive match of a pattern against a field succeeds exactly when the pattern's literal text occurs in the field up to case |
| Patterns.EscapedMatches | server/controllers/FriendRequestsControllers.js:201-202 | a case-insensitive test of the escaped term against a text holds exactly when the term occurs in the text up to case |
| FriendRequests.FindByEmail | server/controllers/FriendRequestsControllers.js:178 | `find` returns the first fetched record with the email, or nothing when no fetched record has it |
| FriendRequests.Arrange | server/controllers/FriendRequestsControllers.js:175-178 | the list has one entry per pending email |
| FriendRequests.ArrangedAt | server/controllers/FriendRequestsControllers.js:171-178 | given any answer of the store to the `$in` query, entry i is the record of the (len-1-i)-th pending email, or absent when no user has it |
| FriendRequests.ArrangeIgnoresFetchOrder | server/controllers/FriendRequestsControllers.js:171-178 | the listed result does not depend on the order in which the store returns the fetched records |
| FriendRequests.PatternMatches | server/controllers/FriendRequestsControllers.js:211-224 | a user passes the `$or` of the four regular-expression tests exactly when the pattern's literal text occurs, up to case, in the first name, last name, email or full name |
| FriendRequests.EscapedSearch | server/controllers/FriendRequestsControllers.js:201-227 | a user passes the four-way regular-expression filter exactly when the term occurs, up to case, in the first name, last name, email or full name |
| FriendRequests.AfterRequest | server/controllers/FriendRequestsControllers.js:43-47 | create's `$addToSet` write to the target's record keeps the set of stored emails |
| FriendRequests.AfterReject | server/controllers/FriendRequestsControllers.js:84-88 | reject's write of the filtered list to the caller's record keeps the set of stored emails |
| FriendRequests.AfterAccept | server/controllers/FriendRequestsControllers.js:129-137 | accept's two saves (the caller's, then the friend's, each appending what was pushed) keep the set of stored emails |
| FriendRequests.RequestRecorded | server/controllers/FriendRequestsControllers.js:43-47 | after the guards, create appends the caller's email to the target's pending requests, where it occurs exactly once; no other record or field changes; duplicate-freedom and consistency are kept |
| FriendRequests.RejectRemoves | server/controllers/FriendRequestsControllers.js:84-88 | reject leaves the email nowhere in the caller's pending requests, keeps all other entries, changes nothing if the email was not pending, writes only the caller's `friendRequests`, keeps duplicate-freedom and consistency |
| FriendRequests.AcceptMakesFriends | server/controllers/FriendRequestsControllers.js:129-137 | accept drops the pending entry, puts the friend in the caller's `friends` and the caller in the friend's `friends`; between two distinct users it grows each list by at most one and keeps every list duplicate-free |
| FriendRequests.SelfAcceptDuplicates | server/controllers/FriendRequestsControllers.js:120-137 | when a user accepts a request from their own email that was not yet a friend, the email is appended twice to their `friends`, which is then no longer duplicate-free |
| FriendRequests.AcceptTouchesTwo | server/controllers/FriendRequestsControllers.js:129-137 | accept writes only the caller's pending requests and friends and the friend's friends; every other record is unchanged, and the caller's id, email, names and image are unchanged even on a self-accept |
| FriendRequests.AcceptKeepsConsistent | server/controllers/FriendRequestsControllers.js:136-137 | after both saves every record is still stored under its own email and the id index still agrees with the records |
| FriendRequests.Directory.FindById | server/controllers/FriendRequestsControllers.js:16 | finds a record exactly when the id is indexed, and it is the stored record with that id |
| FriendRequests.Directory.FindOne | server/controllers/FriendRequestsControllers.js:23 | finds a record exactly when the email is stored, and it is the record with that email and a matching id |
| FriendRequests.Directory.CreateFriendRequest | server/controllers/FriendRequestsControllers.js:4-60 | missing field 400, missing caller 404, missing target 404, already requested 400, already friends 400, in that order and with no write; otherwise 201 with the target as read and the caller, and the directory becomes AfterRequest |
| FriendRequests.Directory.RejectFriendRequest | server/controllers/FriendRequestsControllers.js:62-99 | missing field 400, then missing caller 404, with no write; otherwise 200 with the requester's record or null, and the directory becomes AfterReject |
| FriendRequests.Directory.AcceptFriendRequest | server/controllers/FriendRequestsControllers.js:101-148 | missing field 400, missing caller 404, request not pending 400, friend record missing 500, in that order and with no write; otherwise 200 with the friend as read plus the caller in its friends, the directory becomes AfterAccept, and the friendship is symmetric; duplicate-freedom is kept except on a self-accept, which appends the caller's email twice |
| FriendRequests.Directory.GetFriendRequests | server/controllers/FriendRequestsControllers.js:150-187 | missing caller 404; no pending requests gives the "No friend requests found" reply; otherwise one entry per pending email, newest first, each the user's projected record or absent |
| FriendRequests.Directory.SearchFriendRequests | server/controllers/FriendRequestsControllers.js:189-235 | missing term or candidate list 400; otherwise exactly the stored users whose email is a candidate and in whose first name, last name, email or full name the term occurs literally, up to case |
| Scenarios.CreateTwice | server/controllers/FriendRequestsControllers.js:31-47 | a request that succeeded, sent again, is refused as already sent and writes nothing |
| Scenarios.RequestThenAccept | server/controllers/FriendRequestsControllers.js:43-137 | a request from a to b that b then accepts always succeeds and leaves a and b in each other's friends with nothing pending from a at b |
| Scenarios.AcceptTwice | server/controllers/FriendRequestsControllers.js:123-131 | a second accept of the same request finds nothing pending and fails with 400 |
| Scenarios.RejectUnknown | server/controllers/FriendRequestsControllers.js:81-94 | rejecting an email that no user has succeeds with a null record |

## Left out

- Token verification (`server/middlewares/AuthMiddleware.js`) is a signature check by a
  foreign library. The caller's id is a handler parameter, and the 401 and 403 replies are
  not modelled.
- The query engine is replaced by map lookups. A malformed id makes `findById` throw a
  cast error (status 500); that path is not modelled.
- Store and runtime failures caught by the catch-all handlers are not modelled. The one
  exception is accept's dereference of a missing friend record, which the source reaches
  on valid input.
- Concurrent requests, the race between accept's two saves, and a crash between them are
  not modelled: the two writes are sequential.
- Saves are modelled at the level of the fields they set and the elements they append;
  document versioning and its conflict errors are not modelled.
- Log output and the HTTP response objects are left out. The `updatedUser` of create is
  only logged, so it is left out too.
- Search's candidate entries are modelled by their emails, the only field the handler
  reads from them.
- Body fields are modelled as strings or absent. A non-string field (for instance a number
  as search term, which makes `replace` throw) is not modelled.
- FriendRequests.Directory.GetFriendRequests: the store's answer to the `$in` query is a
  parameter, and the per-entry result is stated for any answer that holds exactly the
  pending users' projected records. The store's own evaluation of the query is not
  modelled.
- FriendRequests.Directory.SearchFriendRequests: the result is a set, because the order
  in which the store returns matching users is not modelled.
- Patterns.Matches: the regular-expression engine is modelled only on patterns made of
  plain characters and backslash-escaped metacharacters, which are the only patterns
  search builds. Case-insensitivity is ASCII case folding, not Unicode case folding.
