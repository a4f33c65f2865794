# Language translation tool: store and handlers

A model of the server side of a small translation web application. The
server forwards text to a translation provider and keeps two JSON files:

- a users file, a sequence of user records (id, e-mail, name, password
  hash, creation time);
- a history file, a map from user id to that user's translations, newest
  first, at most 100 per user.

Sessions tie a request to a logged-in user id.

The model has four modules:

- `Text` (`text.dfy`): the string operations the handlers use. These are
  ASCII lower- and upper-casing and the local part of an e-mail address
  (`email.split('@')[0]`).
- `Storage` (`storage.dfy`): the records, and lookup by e-mail (ignoring
  case) and by id as functions over the users sequence. It also has the
  history list operations and the class `Store`, whose two fields are the
  two files. `CreateUser` appends to the users field. `AppendHistoryForUser`
  rewrites the history map.
- `Server` (`server.js` handlers, `server.dfy`): the class `Server` holds a
  store and the current request's session user id. It has one method per
  route: register, login, logout, `/me`, `/history` and translate. Each
  returns a status code and a body, and its contract covers every error
  path and what it leaves unchanged. `Valid()` says ids are unique, e-mail
  addresses are unique up to case, and no history list is over the cap.
  Every handler keeps it.
- `Scenarios` (`scenarios.dfy`): request sequences proved from the handler
  contracts. Register then log in with a case variant. Register the same
  address twice. Translate, then list the history.

Inputs from outside the program are parameters:

- A fresh user id is the `id` argument. Its precondition says it is
  non-empty and that no stored user has it (`FreshId`).
- The password hashing library is a `Hasher` value, holding a hash function
  and a compare function. `Sound` says the compare accepts the password a
  hash was made from. `Discriminating` says it accepts no other password
  against that hash.
- The clock is a `now` string.
- The translation provider's answer is a `ProviderReply`. It is either
  delivered, rejected with a status and body, or an exception. The translate
  handler returns the `ProviderRequest` it would send, or none when
  validation fails.

A new user's name is defaulted in two steps. Registration passes
`name || email.split('@')[0]` to the store (server.js:46), and the store
keeps `name || email` (storage.js:44). So without a name the stored name is
the part of the address before the first `@`. When that part is empty, the
address starts with `@`, and the stored name is the whole address
(`RegisteredNameLeadingAt`).

A session counts as logged in when its user id is truthy, that is, present
and not empty, as in `if (!req.session.userId)`.

## Model

| member | source | states |
|---|---|---|
| `Text.ToLower` | storage.js:32 | lower-casing keeps the length, leaves no ASCII capital, and changes a character only by mapping a capital to its small letter |
| `Text.ToUpper` | server.js:116 | upper-casing the target language keeps the length, leaves no ASCII small letter, and changes only small letters to capitals |
| `Text.ToLowerIdempotent` | storage.js:32 | lower-casing an address a second time changes nothing |
| `Text.ToUpperIdempotent` | server.js:141 | an upper-cased language code is already normalised |
| `Text.ToUpperIgnoresCase` | server.js:115-116 | a target code sent in lower case is upper-cased to the same code as its upper-case spelling |
| `Text.CaseVariantsAreSameEmail` | storage.js:32 | an address, its upper-cased form and its lower-cased form all count as the same e-mail |
| `Text.LocalPart` | server.js:46 | `split('@')[0]` is a prefix of the address with no '@'; when shorter than the address, an '@' follows it |
| `Text.LocalPartAtFirstAt` | server.js:46 | the local part is exactly the text before the first '@' |
| `Storage.FindUserByEmail` | storage.js:30-33 | none exactly when no stored address equals the argument after lower-casing both; otherwise the first record that matches |
| `Storage.GetUserById` | storage.js:35-38 | none exactly when no record has the id; otherwise the first record with exactly that id |
| `Storage.ViewHidesPasswordHash` | storage.js:47 | `View`, the reply `{id, email, name}`, does not depend on the password hash or the creation time |
| `Storage.StoredName` | storage.js:44 | the store's default to the address: a non-empty given name is kept, the result is either the name or the address, and a non-empty address gives a non-empty name |
| `Storage.VerifyPassword` | storage.js:50-52 | with a sound hashing library, a record accepts the password whose hash it stores; with a discriminating one, an accepted password is the only one whose hash the record holds |
| `Storage.FindUserByEmailIgnoresCase` | storage.js:30-33 | two addresses equal up to case find the same record |
| `Storage.FindUserByEmailAfterAppend` | storage.js:40-46 | after a record is appended, an address that matched before finds the same record; otherwise it finds the new record if it matches, else nothing |
| `Storage.GetUserByIdAfterAppend` | storage.js:40-46 | after a record is appended, lookup by id is unchanged for known ids and finds the new record by its own id |
| `Storage.GetUserByIdUnique` | storage.js:35-38 | with unique ids, lookup by id returns the one record that has that id |
| `Storage.FindUserByEmailUnique` | storage.js:30-33 | with addresses unique up to case, lookup returns the one matching record |
| `Storage.AppendKeepsUniqueEmails` | server.js:44-46 | creating a user only after the e-mail lookup found nothing keeps addresses unique up to case |
| `Storage.AppendDuplicateBreaksUniqueEmails` | storage.js:40-46 | the store does not check uniqueness itself: appending an address already present up to case breaks uniqueness |
| `Storage.AppendKeepsUniqueIds` | storage.js:42-45 | a record with a fresh id keeps ids unique |
| `Storage.GetHistoryForUser` | storage.js:63-66 | a known id gives exactly its own stored list and an unknown id the empty list; with every list within the cap, so is the answer |
| `Storage.Take` | storage.js:59 | `slice(0, n)` returns the first min(length, n) elements, as a prefix |
| `Storage.WithNewest` | storage.js:56-59 | after an append, the new item is at index 0, the old entries follow in order, and the length is min(old length + 1, 100) |
| `Storage.AppendAllKeepsNewest` | storage.js:54-60 | a list within the cap, after a run of appends, is those items newest first followed by the old list, cut at 100 |
| `Storage.HistoryFromEmpty` | storage.js:54-66 | from no history, n appends leave min(n, 100) entries: the last items appended, newest first |
| `Storage.Store.constructor` | storage.js:13-17 | fresh data files hold no users and no history |
| `Storage.Store.CreateUser` | storage.js:40-48 | for a fresh non-empty id, appends exactly one record at the end, even for a duplicate address; earlier records and history are unchanged; the name is the given name or else the e-mail; returns id, e-mail and name only |
| `Storage.Store.AppendHistoryForUser` | storage.js:54-61 | the user's list becomes the new item followed by the old list (empty when absent), cut at 100; every other user's list and the users are unchanged; lists stay within the cap |
| `Server.TranslatedText` | server.js:135 | the first translation's text when there is one, otherwise the empty string |
| `Server.RegisteredNameDefault` | server.js:46 | without a name, a new user is named with the part of the address before the first '@' |
| `Server.RegisteredNameLeadingAt` | server.js:46 | without a name, an address starting with '@' gives the whole address as the name |
| `Server.RegisteredName` | server.js:46 | the name registration stores: a non-empty given name is kept; otherwise it is the local part or the whole address; a non-empty address always gives a non-empty name |
| `Server.NewEntryIgnoresTargetCase` | server.js:138-143 | `NewEntry`, the history record of a translation, stores the target upper-cased, and is the same whether the client sent it in lower, upper or mixed case |
| `Server.Server.Register` | server.js:40-52 | 400 when e-mail or password is missing or empty, 409 when the address is registered up to case; in both, users and session are unchanged; otherwise exactly one record is appended (id, e-mail, default name, hash), the session gets the new id, and the reply is the public view; history is never touched; `Valid()` is kept |
| `Server.Server.Login` | server.js:54-67 | 400 for a missing field, 401 for an unknown address or a failed password check, with the session unchanged in each; otherwise the session gets the found user's id and the reply is that user's public view; `Valid()` is kept |
| `Server.Server.Logout` | server.js:69-71 | the session is cleared and the reply is `{ok: true}`; `Valid()` is kept |
| `Server.Server.Me` | server.js:73-78 | always 200; null when the session id is absent or empty, or names no stored user; otherwise the public view of the record with that id |
| `Server.Server.History` | server.js:80-84 | 401 exactly when the session id is absent or empty; otherwise exactly the session user's stored list (empty when absent) |
| `Server.Server.Translate` | server.js:105-149 | 400 with no provider request and no history change when text or target is missing or empty. Otherwise the text is sent with the target upper-cased. A rejection passes its status and body through, and an exception gives 500; neither changes history. On success the reply carries the extracted text and the raw result. With a session (a non-empty user id), history gains exactly one front entry (text, translation, upper-cased target, time) for that user only; without one, nothing changes. The users file is never touched |
| `Scenarios.RegisterThenLogin` | server.js:40-67 | registering a new address, then logging in with any case variant and the same password, returns the same public view and the session holds the new id |
| `Scenarios.RegisterThenWrongLogin` | server.js:40-67 | with a discriminating hashing library, registering and then logging in with a case variant of the address and another password gives 401, and the session keeps the new id |
| `Scenarios.RegisterTwice` | server.js:40-52 | registering one address twice in different letter case gives one success, one 409, and one new record |
| `Scenarios.TranslateThenHistory` | server.js:80-149 | after a logged-in translation, the history route lists the new entry first, and other users' lists are unchanged |

## Left out

- File I/O: reading and parsing the JSON files, writing through a temporary file and renaming it, and creating missing files (storage.js:13-28). The two files are the `Store` fields, and each mutation assigns its new contents in one step. Crash atomicity depends on the file system and is not modelled.
- The 500 replies of register and login (server.js:49-51, server.js:64-66) and translate's 500 from a failed history write are not modelled. They come from storage I/O, from hashing exceptions, or from non-string fields (see below). When no name is given, a truthy non-string `email` passes the check at server.js:43 and then throws at `email.split('@')` on server.js:46. When a name is given, the `||` on server.js:46 never reaches `split`, so the record is stored with the non-string `email` and the reply is 200. From then on, every `findUserByEmail` whose search reaches that record throws at `u.email.toLowerCase()` (storage.js:32). So registering any new address, and logging in as any user stored after that record, gives 500 (server.js:49-51, server.js:64-66). Translate's 500 for a provider exception is modelled as `Thrown`.
- The bcrypt hash and compare are a `Hasher` oracle. Salting, cost factor and constant-time comparison are outside the model, and so is the claim that the stored hash never equals the plaintext.
- `Storage.VerifyPassword`: refusing a wrong password is a property of the hashing library, not of this code. The model states it only under `Discriminating`, which is an assumption about the library. Real bcrypt does not meet it: bcrypt reads only the first 72 bytes of a password, so two passwords that share those bytes both verify against the same hash.
- `crypto.randomUUID` is the `id` parameter. The preconditions of `Register` and `Store.CreateUser` say the id is non-empty, as every UUID is, and that no stored user has it. So every id these create is non-empty; `Valid()` does not itself require non-empty ids. `new Date()` is the `now` parameter.
- The provider HTTP calls, URL, form encoding and headers (server.js:87-102, server.js:112-126) are network I/O. `/api/languages` forwards one call and `/api/health` returns a constant, so neither is modelled.
- Express, express-session, CORS, dotenv and static files (server.js:1-33). The session is one field holding the current request's user id.
- Concurrent requests and the lost-update race between read and write of a file.
- Case folding covers ASCII letters only, not full Unicode `toLowerCase`/`toUpperCase`.
- Request fields are strings or absent. Non-string JSON values (numbers, objects) and the `String(...)` coercions or exceptions they cause are not modelled.
- The provider's success body is an object whose `translations` may be missing. A JSON `null` body, which would be echoed as `raw: null`, is not modelled.
- A user id equal to a built-in object property name (such as `constructor`) would break `all[userId]` in the history file. UUIDs never take such values, so this is not modelled.
- The browser UI (`public/app.js`) and the serverless copies of the proxy routes (`api/*.js`).
