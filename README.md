# CryptoTracker core, modelled in Dafny

CryptoTracker is a small single-page application for browsing cryptocurrency
prices and logging users in against a document database. Most of it is
configuration and glue. Two pieces hold application logic, and this project
models and verifies both:

- **The login rule** (`loginUser`, module `Auth` in `auth.dfy`). The `users`
  collection is a sequence of `User` records in the order the database returns
  them. The database query `where(field, "==", x)` is `Auth.Where`: the records
  whose field equals `x`, kept in order. The rule queries by email first. It
  queries by username only when the email query is empty. It then takes the
  first document and compares its password by plain equality. The outcome is
  `Success` with a four-field projection (`id`, `fullName`, `username`,
  `email`; no password), `Failure("Incorrect password")` or
  `Failure("User not found")`.
- **The price cache** (`useCoinsStore`, module `CoinsStore` in
  `coins_store.dfy`). The store is a class whose one field, `coinDataTop50`,
  starts empty. The action `FetchCoins` takes the outcome of the price API call
  as an input: the call rejects, `response.data.data` is missing or has no
  `slice` (null, a number, a boolean, a plain object), or the data array
  arrives. On success the cache is replaced by the first 50 records
  (JavaScript `slice(0, 50)`, modelled by `Slice`). On either failure the cache
  is left unchanged. `AfterFetch` is the same update as a pure function, and the
  lemmas about the cache are stated on it.

`IsFirstOwner(users, identifier, i)` names the document the rule decides on.
It is the first email match, or, when no record has that email, the first
username match.

## Model

| member | source | states |
|---|---|---|
| Auth.Where | src/service/authService.js:8 | the query result holds exactly the records of the collection whose field equals the value, and is no longer than the collection |
| Auth.WhereStartsWithFirstMatch | src/service/authService.js:18 | `docs[0]` of a query is the first record of the collection whose field equals the value |
| Auth.FirstMatchExists | src/service/authService.js:17-18 | whenever some record matches, there is a first matching record |
| Auth.Lookup | src/service/authService.js:8-15 | every record of the snapshot is a record of the collection whose email or username is the identifier, and it is empty exactly when no record has the identifier as email or as username |
| Auth.LookupFallsBackToUsername | src/service/authService.js:12-15 | the username query is used when no record has the identifier as email; otherwise the email query is used |
| Auth.FirstOwnerExists | src/service/authService.js:8-18 | if some record has the identifier as email or username, the rule has a document to decide on |
| Auth.LookupStartsWithFirstOwner | src/service/authService.js:8-18 | the snapshot's first document is the first email match, or the first username match when there is no email match |
| Auth.Project | src/service/authService.js:24-29 | the success projection copies `id`, `fullName`, `username` and `email` unchanged; the view type has no password field |
| Auth.Verify | src/service/authService.js:21-33 | the check succeeds exactly when the stored password equals the supplied one; success carries the projection and failure the message "Incorrect password" |
| Auth.Login | src/service/authService.js:4-37 | a successful login returns a user whose email or username is the identifier; the result is "User not found" exactly when no record has the identifier as email or username |
| Auth.LoginDecidesOnFirstOwner | src/service/authService.js:8-33 | the result is the password check on the first owner and depends on no other document |
| Auth.EmailMatchTakesPriority | src/service/authService.js:8-15 | with an email match, the first email match decides; two collections with the same first email match give the same result, whatever their usernames and later records are |
| Auth.UsernameFallback | src/service/authService.js:12-15 | with no email match, the first username match decides |
| Auth.LoginSucceedsOnRightPassword | src/service/authService.js:17-30 | if the first owner's password equals the supplied one, the result is success with that document's projection |
| Auth.LoginRefusesWrongPassword | src/service/authService.js:18-32 | if the first owner's password differs, the result is "Incorrect password", even if a later matching document has the right password |
| Auth.LoginSuccessIsSound | src/service/authService.js:8-30 | success implies that a document whose email or username is the identifier holds that password, is the first owner, and is the one projected |
| Auth.FirstMatchWinsExample | src/service/authService.js:18-32 | two documents share an email; the first has another password; the login fails with "Incorrect password" although the second document's password matches |
| Auth.EmailShadowsUsernameExample | src/service/authService.js:8-15 | one user's email equals another user's username; the email match decides and the username match is never consulted |
| Auth.UsernameLoginExample | src/service/authService.js:12-30 | a user known only by username logs in through the fallback and gets the four projected fields |
| CoinsStore.Slice | src/store/coinsStore.js:12 | `slice(start, end)` with non-negative bounds returns the clamped range of the array, in order |
| CoinsStore.AfterFetch | src/store/coinsStore.js:10-16 | after a successful fetch the cache is the response's first min(50, \|data\|) records; after a rejected call or an unsliceable data field it is the cache as it was |
| CoinsStore.FetchKeepsTopPrefix | src/store/coinsStore.js:12-13 | after a successful fetch the cache has min(50, \|data\|) records and equals that prefix of the response |
| CoinsStore.FetchOverwrites | src/store/coinsStore.js:13 | a successful fetch replaces the cache wholesale; the previous contents do not affect the result |
| CoinsStore.FailedFetchKeepsCache | src/store/coinsStore.js:10-16 | a rejected call or a `response.data.data` without `slice` leaves the cache unchanged |
| CoinsStore.FetchPreservesBound | src/store/coinsStore.js:12-13 | every fetch keeps the cache at no more than 50 records |
| CoinsStore.FetchIdempotent | src/store/coinsStore.js:12-13 | refreshing twice with the same outcome gives the same cache as refreshing once |
| CoinsStore.Store.constructor | src/store/coinsStore.js:7 | the cache starts as the empty sequence, and the bound holds |
| CoinsStore.Store.FetchCoins | src/store/coinsStore.js:9-17 | the cache keeps its bound, and its new value is `AfterFetch` of the old value and the outcome: the response's first min(50, \|data\|) records after success, unchanged after a failure |
| CoinsStore.RefreshTwice | src/store/coinsStore.js:12-13 | two calls of the action with the same successful response leave the store as one call does |

## Left out

- The route table (`src/router/index.js`) is left out: it is static data handed to the router library, with no logic of its own.
- The colour theme (`tailwind.config.js`) is left out: it is presentational only.
- The HTTP GET in `src/service/CoinService.js` is network I/O. Only its outcome is modelled, as the input `FetchOutcome` of `FetchCoins`.
- The document database calls (`collection`, `query`, `where`, `getDocs`) are a foreign library. A query is modelled as filtering a given sequence. The document order is whatever order that sequence has. Query failures are not modelled.
- A `response.data.data` that is a string is not modelled. The source calls `String.prototype.slice(0, 50)` on it, which does not throw, and stores the first 50 UTF-16 code units of the string as the cache. The model has no outcome for this case; its cache always holds a sequence of price records.
- `Auth.Login` runs both queries against one `users` sequence. The source makes two separate reads of the collection, with an `await` between them. The model assumes both reads see the same snapshot of the collection, so a collection that changes between the two reads is not captured.
- `async`/`await` is not modelled. Each `fetchCoins` call is treated as atomic, so overlapping refreshes that race to overwrite the cache are not captured.
- The `console.error` call in the failure path is logging with no effect on state, and is left out.
- Passwords are strings compared by plain equality, as the code does. JavaScript's `===` on values that are not strings is not modelled.
- `Auth.Login` is deterministic because every Dafny function is, given the single snapshot assumed above. No separate lemma states that. `Auth.LoginDecidesOnFirstOwner` proves the stronger fact that the result depends only on the first owner's record and the password.
- `Auth.Where` states which records the query returns and which one comes first. It does not state the order of the later records, because the rule reads only `docs[0]`.
- `CoinsStore.Slice` is modelled for non-negative bounds only, because the source calls it only with `0` and `50`.
