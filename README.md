# Refresh-token sessions of the trEAT user routes, in Dafny

This project models the authentication core of the trEAT backend. Each user
document holds an ordered list `refreshToken` of `{_id, refreshToken}`
subdocuments, one per signed-in device, and four route handlers work on it:

- `/login` appends a record;
- `/signup` registers the user and then appends a record;
- `/refreshToken` rotates a record: it verifies the cookie token, looks it up
  in the list of the user named by the token's payload, and overwrites that
  position with a newly signed token;
- `/logout` pulls the matching record out of the list of the access token's
  user.

A token that is no longer in the list can no longer be rotated, so removing
it from the list is what revokes it. The model also covers the id checks of
`GET /user/:id`, and two pure helpers of the seed loader: `toTitleCase` and
the rule that turns a seed file's name into a model name.

Files and modules:

- `values.dfy`, module `Values`. `Option`, plus the JavaScript values that the
  handlers test, with JavaScript truthiness (`Truthy`) and JavaScript's string
  `length` in UTF-16 code units (`JsLength`).
- `session_list.dfy`, module `SessionList`. The session record, the
  `findIndex` scan (`FindIndex` as a function, `ScanForToken` as the loop),
  Mongoose's pull-by-`_id` (`WithoutId`), a per-token count, and lemmas:
  - rotating or removing the only record holding a token retires that token;
  - pulling an `_id` removes exactly one position when `_id`s are distinct.
- `user_routes.dfy`, module `UserRoutes`. The class `Store` has three fields:
  - `users: map<UserId, User>`, the persisted collection;
  - `nextId`, Mongoose's ObjectId generator;
  - a ghost log `issued` of every token signed.

  `Valid()` says three things about every user's list: its `_id`s are
  distinct, they are below `nextId`, and each of its tokens was signed by
  `getRefreshToken` for that very user. The methods `Login`, `Signup`,
  `Refresh` and `Logout` keep `Valid()`, and each one's `ensures` gives the
  reply and the whole new state in every branch. The module also holds
  `GetUserById` and three client scenarios:
  - `TwoDevicesScenario`: two sessions for one user;
  - `RotationScenario`: the old token is refused after rotation and the new
    one is accepted;
  - `LogoutScenario`: a repeated logout succeeds and changes nothing.
- `seed.dfy`, module `Seed`. `ToTitleCase` is a two-state left-to-right scan.
  It is equivalent to the global replace with `/\w\S*/g`: a match starts at a
  word character and runs to the next white space. The lemmas:
  - a per-run characterisation;
  - white space and length are preserved;
  - applying it twice changes nothing.

  The module also holds `SeedFiles` (the `.seed.js` filter), `BeforeSuffix`
  (`split('.seed.js')[0]`) and `ModelName`.

Foreign parts become inputs:

- passport's local and JWT strategies become the principal they produce
  (`Option<UserId>`);
- `jwt.verify` becomes a total function `Token -> Option<UserId>` (`None`
  where it throws);
- the strings that `getToken` and `getRefreshToken` sign are passed in;
- the outcomes of `User.register` and of each `user.save` are booleans.

A failed `save` leaves the persisted `users` as they were.

The model follows the code at these points, where it departs from a textbook
session store:

- Refresh assigns a new subdocument `{refreshToken}` to the found position
  (`backend/src/routes/userRoutes.js:103`). Mongoose gives it a new `_id`, so
  the record does not keep its identity.
- A missing `fullName` is answered with status 500, `FullNameError`, not with
  a 4xx input error.
- `User.register` stores the user before the handler's own `save`. If that
  second `save` fails, the user stays in the collection with no sessions, so
  the write is partial.
- Rotation replaces by position, found by a separate scan. It is not a
  compare-and-swap on the token value.
- Two refresh tokens signed for one user in the same second are one identical
  string, so a list may hold one token twice. Logout and rotation touch only
  the first copy, so "a second logout is a no-op" holds only for a token held
  once (`LogoutTwice`, `RemovalRetires`).
- When `findById` returns no user in login or logout, the promise callback
  throws and no response is sent (`NoReply`).

## Model

| member | source | states |
|---|---|---|
| `SessionList.FindIndex` | backend/src/routes/userRoutes.js:93-95 | the result is -1 exactly when no record holds the token; otherwise it is a position holding it with no earlier position holding it |
| `SessionList.ScanForToken` | backend/src/routes/userRoutes.js:140-142 | the front-to-back scan returns exactly the first matching position, or -1 |
| `SessionList.FindIndexCount` | backend/src/routes/userRoutes.js:96 | the scan misses a token exactly when no record holds it |
| `SessionList.WithoutId` | backend/src/routes/userRoutes.js:144 | pulling an `_id` keeps no record with that `_id`, adds no record, and never lengthens the list |
| `SessionList.PullRemovesOne` | backend/src/routes/userRoutes.js:143-145 | with distinct `_id`s, pulling the `_id` of the record at position k removes exactly that position and keeps the others in order |
| `SessionList.WithoutIdKeepsOthers` | backend/src/routes/userRoutes.js:144 | pulling an `_id` keeps every record that carries a different `_id` |
| `SessionList.NoIdNoPull` | backend/src/routes/userRoutes.js:144 | pulling an `_id` carried by no record leaves the list unchanged |
| `SessionList.CountAfterUpdate` | backend/src/routes/userRoutes.js:103 | overwriting one position changes a token's count only by the record that left and the record that arrived |
| `SessionList.CountAfterRemove` | backend/src/routes/userRoutes.js:144 | removing one position lowers a token's count by the record that stood there |
| `SessionList.RotationRetires` | backend/src/routes/userRoutes.js:93-103 | once the only record holding t is overwritten with a different token, a later lookup of t fails and the new token is found at or before that position |
| `SessionList.RemovalRetires` | backend/src/routes/userRoutes.js:140-145 | once the only record holding t is removed, a later lookup of t fails |
| `UserRoutes.LogoutIndex` | backend/src/routes/userRoutes.js:134-142 | the position logout finds is -1 exactly when the cookie is absent (`undefined`, equal to no stored token) or no record holds its token; otherwise it is the first position holding the cookie's token |
| `UserRoutes.AfterLogout` | backend/src/routes/userRoutes.js:140-145 | logout leaves the list as it is when the cookie is absent or not found, and otherwise shortens it by exactly one |
| `UserRoutes.RemoveKeepsValid` | backend/src/routes/userRoutes.js:144 | removing one record keeps distinct `_id`s and keeps every remaining token one issued to that user |
| `UserRoutes.Store.Login` | backend/src/routes/userRoutes.js:20-37 | without a principal: 401, nothing minted, nothing changed. For an unknown user: both tokens minted, no reply. Otherwise: access then refresh token minted, one record with a fresh `_id` and the refresh token appended after all old records, or 500 with the persisted users unchanged when save fails. The status is 401 exactly without a principal, nothing is sent exactly for an unknown user, 200 exactly when the user exists and save succeeds, 500 exactly when it fails |
| `UserRoutes.Store.Signup` | backend/src/routes/userRoutes.js:39-74 | falsy fullName: FullNameError with nothing registered, minted or changed. Register failure: its error with nothing minted or changed. Otherwise the new user gets an unused `_id` and both tokens are minted. The user is stored with exactly one record holding the refresh token, or with no records and a 500 when save fails. The status is 200 exactly when fullName is truthy and register and save succeed, and 500 otherwise |
| `UserRoutes.Store.Refresh` | backend/src/routes/userRoutes.js:82-129 | each miss answers 401 and changes nothing: cookie absent or empty, verify fails, no user for the payload id, token not in that user's list. On a hit the token was issued to the payload user, and only the first position holding it is overwritten, with a new record holding the new token. A failed save answers 500 with the users unchanged. The status is 401 exactly on a miss, and otherwise 200 or 500 as save succeeds or fails |
| `UserRoutes.Store.Logout` | backend/src/routes/userRoutes.js:132-158 | no principal: 401. Unknown user: no reply. Otherwise the access-token user's list becomes `AfterLogout` of the cookie and the reply is success whether or not the token was found, or 500 with the users unchanged when save fails. Never mints or allocates. The status is 401 exactly without a principal, nothing is sent exactly for an unknown user, and otherwise 200 or 500 as save succeeds or fails |
| `UserRoutes.LogoutTwice` | backend/src/routes/userRoutes.js:140-152 | for a token held once, the first logout shortens the list by one and a second logout with that token leaves it unchanged |
| `UserRoutes.GetUserById` | backend/src/routes/userRoutes.js:172-201 | 400 exactly when the id is not a string whose JavaScript `length` (UTF-16 code units) is 24; 204 with the error "Recipe not found" when it is one and the lookup finds nothing, 200 when the lookup finds a user; an error body exactly when the status is not 200 |
| `UserRoutes.GetUserFirstFailure` | backend/src/routes/userRoutes.js:176-189 | the message is "Badly formatted ID" exactly for a falsy id (the empty string too), "ID is not of type string" exactly for a truthy non-string, and "ID is of wrong length" exactly for a non-empty string whose UTF-16 length is not 24 |
| `UserRoutes.GetUserLookupOnlyWhenWellFormed` | backend/src/routes/userRoutes.js:186-191 | the lookup does not affect the reply unless the id is a string of 24 UTF-16 code units |
| `UserRoutes.GetUserCountsCodeUnits` | backend/src/routes/userRoutes.js:186 | a character outside the Basic Multilingual Plane counts twice: 23 other characters plus one such character are rejected as of wrong length, 22 plus one pass the length test |
| `Values.JsLength` | backend/src/routes/userRoutes.js:186 | JavaScript's string `length` lies between the number of characters and twice that, and equals the number of characters exactly when every character is in the Basic Multilingual Plane |
| `Values.JsLengthSnoc` | backend/src/routes/userRoutes.js:186 | appending a character adds one code unit, or two for a character outside the Basic Multilingual Plane |
| `UserRoutes.TokenBody` | backend/src/routes/userRoutes.js:32 | the body sent with a token carries `success: true` and the token itself |
| `UserRoutes.SignupBodyAsWritten` | backend/src/routes/userRoutes.js:67 | signup's body as written carries the flag under the misspelt name `sucess`, with the token beside it |
| `UserRoutes.SignupBodyLacksSuccess` | backend/src/routes/userRoutes.js:67 | a client reading `success` from signup's body as written gets nothing, while the login body gives `true` |
| `Seed.ToTitleCase` | backend/src/testing/utils/seed.js:8-12 | `toTitleCase` keeps the length of its input; `TitleCaseKeepsSpaces`, `TitleCaseRun`, `TitleCaseRunWithoutWord` and `TitleCaseIdempotent` characterise the rest |
| `Seed.Replace` | backend/src/testing/utils/seed.js:9-11 | the replace keeps the length of its input |
| `Seed.ReplaceAt` | backend/src/testing/utils/seed.js:9-11 | each output character is the replacement of the input character at the same position, in the state the scan has reached there |
| `Seed.TitleCaseKeepsSpaces` | backend/src/testing/utils/seed.js:9-11 | `toTitleCase` keeps the length and every white-space character at its position |
| `Seed.StateInRun` | backend/src/testing/utils/seed.js:9 | inside a run of non-white-space characters, the scan is inside a match exactly when the run has already shown a word character |
| `Seed.TitleCaseRun` | backend/src/testing/utils/seed.js:9-10 | in a run whose first word character is at w, the characters before w are unchanged, s[w] is upper-cased and the rest of the run is lower-cased |
| `Seed.TitleCaseRunWithoutWord` | backend/src/testing/utils/seed.js:9 | a run with no word character comes out unchanged |
| `Seed.ReplaceIdempotent` | backend/src/testing/utils/seed.js:9-11 | running the replace on its own output, from the same state, changes nothing |
| `Seed.TitleCaseIdempotent` | backend/src/testing/utils/seed.js:8-12 | `toTitleCase(toTitleCase(s)) == toTitleCase(s)` |
| `Seed.SeedFiles` | backend/src/testing/utils/seed.js:17 | a name is kept exactly when it is in the directory listing and ends with `.seed.js` |
| `Seed.BeforeSuffix` | backend/src/testing/utils/seed.js:20 | the result is a prefix of the name and no `.seed.js` starts inside it; it is followed by `.seed.js` unless it is the whole name |
| `Seed.ModelName` | backend/src/testing/utils/seed.js:20-21 | the model name is never longer than the file name, and a name holding no `.seed.js` is title-cased whole; `ModelNameOfSeedFile` gives the name of every seed file whose stem holds no `.seed.js`; for the others the name follows from `BeforeSuffix`'s contract |
| `Seed.ModelNameOfSeedFile` | backend/src/testing/utils/seed.js:17-21 | for `name + ".seed.js"` whose name has no `.seed.js` in it, the file passes the filter and its model name is `toTitleCase(name)` |
| `Seed.RecipeModelName` | backend/src/testing/utils/seed.js:20-21 | `recipe.seed.js` gives the model name `Recipe` |

## Findings

| source | as written | input that shows it | evidently intended | confidence | as-written member | corrected member |
|---|---|---|---|---|---|---|
| backend/src/routes/userRoutes.js:67 | the success body of signup is `{ sucess: true, token }` | any successful signup: `success` is absent from the body (`UserRoutes.SignupBodyLacksSuccess`) | `{ success: true, token }`, the body login (line 32) and refresh (line 110) send | high; not executed | `UserRoutes.SignupBodyAsWritten` | `UserRoutes.TokenBody` |

The `Authorized` reply of all three flows stands for the corrected body,
`TokenBody`. Signup as written sends `SignupBodyAsWritten` with that reply
instead.

## Left out

- `GET /me` and `GET /users`: database reads with `populate`, with no logic of their own.
- Passport's local strategy and password hashing are foreign library calls. They appear only as the principal they produce. `User.register` is only a success flag, so username uniqueness and register's own input checks are not modelled.
- JWT signing, verification and expiry, and the cookie options, are foreign crypto and transport. Tokens are opaque strings and `jwt.verify` is the `verify` parameter. A tampered signed cookie counts as absent.
- `Refresh`: does not model a verified payload without `_id`. In the source that runs `findOne({_id: undefined})`. The model's `verify` gives an id or nothing.
- A failing `findOne` or `findById` query (`err => next(err)`) and Express's error handler are not modelled.
- `GetUserById`: the lookup is abstract and answers only found or not found. The document returned with status 200 and Mongoose's CastError for a non-hex id are not modelled. Neither is Express dropping the body of a 204 reply.
- Concurrency: each flow is one atomic step. The source has no locking, so the race between a refresh and a logout on one token is outside the model.
- Mongoose behaviour the model assumes is that of Mongoose 6, where `save` still takes a callback, where an index assignment into a document array is tracked and saved, and where a subdocument's `remove()` pulls its `_id` from the parent array.
- Schema casting of `username` and `fullName`: the stored value is the request value.
- Logout from every device: the source has no route that clears a whole list.
- `ToTitleCase`: does not model `toUpperCase`/`toLowerCase` outside ASCII, where JavaScript can change the length (`ß` becomes `SS`). Non-ASCII characters are left unchanged, so length preservation is proved only for this ASCII model.
- `SeedFiles`: its contract states membership only. That the filter keeps order and repeats follows from its definition but is not stated.
- `seedDatabase`'s I/O is not modelled: `readdir`, `require`, the `mongoose.models` lookup with its throw, and `insertMany`/`create`.
