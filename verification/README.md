# Bakery directory backend: request-handler decision logic in Dafny

This project models the request handlers of a small Express backend for a
bakery directory: user registration and login, the bearer-token gate in front
of the protected routes, favoriting bakeries, and rating bakeries with the
recomputation of each bakery's stored average. The hosted database is replaced
by an immutable in-memory store, and every handler becomes a pure function
`State × Request → (State, Response)`.

- `base.dfy` — `Optional` (Option), `Store` (users, ratings, the bakeries'
  `rating` column, favorites; the per-request store failures `Faults`; the
  store's own unique constraints as `Valid`), `Crypto` (token claims and the
  opaque verifier, hasher and comparer), `Http` (statuses and bodies).
- `middleware.dfy` — `BearerHeader` (the header split on single spaces, its
  inverse, the token as the second field) and `AuthMiddleware` (the gate:
  401, 403 or proceed with the decoded claims).
- `ratings.dfy` — `RatingRoutes`: the upsert keyed by (user, bakery), the
  re-read of a bakery's scores, their mean, the write-back, and the
  "my rating or null" lookup.
- `auth.dfy` — `AuthRoutes`: register, login and `/me`.
- `favorites.dfy` — `FavoriteRoutes`: add, remove, list.
- `api.dfy` — `Api`: the routes with the gate in front of all but register
  and login.

The store's tables are row sequences so that row order (the favorites list)
and "every score of this bakery" (the average) are direct; the map view of
ratings `(user, bakery) → score` is `RatingRoutes.ScoreOf`. Each store call a
handler makes may fail, independently, as chosen by the `Faults` argument.
Password hashing, token signing and token verification are function-typed
arguments: `Hasher` (bcrypt with the salt drawn for the request),
`Comparer`, `Verifier` (jsonwebtoken with the secret and the clock). A
successful register or login answers with the claims `{id, email}` the token
signs, together with the public projection of the user.

## Model

| member | source | states |
|---|---|---|
| BearerHeader.JoinSplit | backend/middleware/authMiddleware.js:6 | splitting the header on single spaces loses nothing: the fields rejoin to the header |
| BearerHeader.SplitJoin | backend/middleware/authMiddleware.js:6 | fields without spaces, joined and split again, come back unchanged |
| BearerHeader.TokenOf | backend/middleware/authMiddleware.js:5-8 | a token found is non-empty and holds no space (a truthy second field) |
| BearerHeader.TokenOfBearerForm | backend/middleware/authMiddleware.js:5-6 | every header `scheme token rest` (rest empty or starting with a space) yields exactly `token`, whatever the scheme word |
| BearerHeader.TokenOfShape | backend/middleware/authMiddleware.js:5-6 | conversely, whenever a token is found the header is a space-free first word, one space, the token, then nothing or a space and more |
| AuthMiddleware.Gate | backend/middleware/authMiddleware.js:3-21 | exactly one of 401, 403 or proceed; 401 exactly when no token is found; proceeds if and only if verification succeeds, and then `req.user` is exactly the decoded claims |
| AuthMiddleware.GateIgnoresScheme | backend/middleware/authMiddleware.js:6 | the first word is never checked: any two scheme words give the same decision |
| AuthMiddleware.GateNoSecondField | backend/middleware/authMiddleware.js:5-12 | a missing header or one without a space gets 401 |
| AuthMiddleware.GateDoubleSpace | backend/middleware/authMiddleware.js:6-12 | a double space after the scheme leaves an empty second field and gets 401 |
| AuthMiddleware.GateRejectsBadToken | backend/middleware/authMiddleware.js:14-19 | a present token that fails verification gets 403 and the handler is not reached |
| RatingRoutes.Upsert | backend/routes/ratings.js:17-23 | after the upsert the pair (user, bakery) has exactly one row (under the unique constraint) holding the new score; no other pair's rows change; the table grows only when the pair was new |
| RatingRoutes.KeyRowCount | backend/routes/ratings.js:22 | under the (user_id, bakery_id) unique constraint a pair has one row when it has any, none otherwise |
| RatingRoutes.UpsertIsMapUpdate | backend/routes/ratings.js:17-23 | read as a map (user, bakery) → score, the upsert is the map update of that one key |
| RatingRoutes.UpsertScores | backend/routes/ratings.js:17-40 | the bakery's re-read scores gain the new score when the pair was new (count + 1), otherwise swap the pair's old score for the new one (same count) |
| RatingRoutes.UpsertOtherBakery | backend/routes/ratings.js:28-31 | a rating of one bakery leaves every other bakery's scores unchanged, so other bakeries never contribute to each other's average |
| RatingRoutes.Mean | backend/routes/ratings.js:39-40 | the average times the count equals the sum of the scores |
| RatingRoutes.MeanInRange | backend/routes/ratings.js:39-40 | scores all in 1..5 give an average in 1..5 |
| RatingRoutes.SubmitRating | backend/routes/ratings.js:7-57 | 400 if and only if bakeryId is missing or empty or the score is missing or outside 1..5, and then nothing changes; 200 if and only if all three store calls succeed; a failed upsert changes nothing; once the upsert succeeded its rows stay even when the re-read or the bakery update fails (no rollback); on 200 the returned average is the mean of the bakery's scores read after the upsert, there is at least one, and exactly that value is written to that bakery alone; users and favorites never change |
| RatingRoutes.SubmitKeepsRange | backend/routes/ratings.js:12-40 | if every stored score lies in 1..5 it still does after a submission, and the average returned lies in 1..5 |
| RatingRoutes.LastSubmissionWins | backend/routes/ratings.js:17-23 | after a batch of submissions for one bakery each user's stored score is the last one that user submitted, and users who did not submit keep theirs |
| RatingRoutes.BatchStoresMean | backend/routes/ratings.js:28-50 | after a non-empty batch the bakery's stored rating is the mean of all scores stored for it |
| RatingRoutes.RatersMembers | backend/routes/ratings.js:28-31 | the users behind the scores re-read for a bakery are exactly the users with a row for it |
| RatingRoutes.RatersNoRepeats | backend/routes/ratings.js:20-22 | under the (user, bakery) conflict target every user appears at most once among a bakery's raters |
| RatingRoutes.RatersMatchScores | backend/routes/ratings.js:28-31 | under the (user, bakery) constraint the i-th score re-read for a bakery is the stored score of the i-th rater, so the re-read holds one score per user |
| RatingRoutes.SubmitAllKeepsUnique | backend/routes/ratings.js:17-23 | a batch of submissions keeps the (user, bakery) constraint |
| RatingRoutes.BatchAveragesLastScores | backend/routes/ratings.js:17-50 | starting with no ratings for a bakery, after a non-empty batch its raters are exactly the distinct voters, each once, and its stored rating is the mean of each voter's last submitted score |
| RatingRoutes.MyRating | backend/routes/ratings.js:60-81 | 500 exactly when the lookup fails; otherwise 200 with a score that is the caller's stored score for that bakery, or null when there is no row (not an error) |
| AuthRoutes.FirstWithEmail | backend/routes/auth.js:88-95 | the position found holds the email and no earlier user has it; none is found exactly when no user has it |
| AuthRoutes.FreshId | backend/routes/auth.js:37-41 | the key the store gives a new user differs from every key in use |
| AuthRoutes.Register | backend/routes/auth.js:8-73 | 400 "Please provide all fields" exactly when a field is missing or empty; 400 "User already exists" if and only if all fields are given and the lookup succeeded and found the email; 500 "Server error during registration" if and only if all fields are given, the lookup failed or found nothing, and the insert fails; 201 exactly when all fields are given, the insert succeeds and either the lookup failed or found nothing; on 201 exactly one user is appended with the given username and email, the hasher's output as password, and a fresh id, and the answer carries claims `{id, email}` and a projection without password; otherwise nothing changes |
| AuthRoutes.MissingFieldNeedsNoStore | backend/routes/auth.js:12-16 | with a field missing the answer does not depend on the store, its failures, the hasher or the clock, and nothing changes |
| AuthRoutes.RegisterKeepsEmailsUnique | backend/routes/auth.js:21-30 | when the existence lookup succeeds, a store with unique emails keeps them unique |
| AuthRoutes.FailedLookupAdmitsDuplicate | backend/routes/auth.js:21-26 | when the lookup fails, the email is taken and the insert succeeds, a second account with that email is appended |
| AuthRoutes.Login | backend/routes/auth.js:76-129 | 400 "Please provide email and password" if and only if the email or the password is missing or empty; 500 if and only if both are given and the lookup fails; 200 if and only if both fields are given, the lookup succeeds, some user has the email and the password verifies against the first such user's hash; the session is that user's; every other outcome after a successful lookup is the same 400 "Invalid credentials"; login never writes |
| AuthRoutes.LoginFailuresLookAlike | backend/routes/auth.js:97-109 | an unknown email and a wrong password get identical answers |
| AuthRoutes.RegisterThenLogin | backend/routes/auth.js:37-122 | logging in with just-registered credentials (lookups succeeding, comparer accepting a password against its own hash) answers 200 with the same session as the registration |
| AuthRoutes.UniqueIdHasOneUser | backend/routes/auth.js:135-139 | under unique ids at most one user row has the token's id |
| AuthRoutes.Me | backend/routes/auth.js:132-148 | 200 only with the profile of a stored user whose id is the token's; 500 when the lookup fails or no such user exists (a token outliving its user); 200 when such a user exists under unique ids |
| FavoriteRoutes.AddFavorite | backend/routes/favorites.js:8-33 | 200 exactly when the insert succeeds and the pair is new, and then the pair is appended; an existing pair gets 400 "Already a favorite"; any other insert error gets 500; on non-200 nothing changes; uniqueness of pairs is kept |
| FavoriteRoutes.WithoutKeepsUnique | backend/routes/favorites.js:42-46 | deleting a pair keeps the remaining pairs unique |
| FavoriteRoutes.RemoveFavorite | backend/routes/favorites.js:36-55 | 200 whether or not the pair existed, and afterwards the table holds exactly the previous pairs other than the caller's (caller, itemId); 500 with nothing changed when the delete fails |
| FavoriteRoutes.RemoveIsIdempotent | backend/routes/favorites.js:42-50 | removing twice equals removing once, in table and answer |
| FavoriteRoutes.RemoveKeepsOthersLists | backend/routes/favorites.js:42-46 | a removal by one user leaves every other user's favorites list as it was |
| FavoriteRoutes.MyFavorites | backend/routes/favorites.js:57-84 | 500 exactly when the lookup fails; otherwise one item per favorite row of the caller, item i being the joined bakery of the caller's i-th row in table order, every bakery returned is one the caller favorited, and every favorited bakery that exists is returned |
| FavoriteRoutes.AddThenList | backend/routes/favorites.js:14-77 | a favorite just added appears last in the caller's list, and no other user's list changes |
| Api.Dispatch | index.js:42-46 | a protected route whose gate denies answers with the gate's 401/403 and changes nothing; a protected route answers otherwise only when the gate proceeded; login, `/me`, my-favorites and my-rating never write; every route keeps the store's unique constraints; register and login are answered by their own handlers; a protected route answering 200 had a verified token, and then acts for that token's subject alone: a removal deletes exactly the subject's pair, my-favorites lists the subject's rows joined in table order, a valid rating whose upsert succeeds is stored under the subject's key, my-rating reads the subject's score, and `/me` returns the profile of a stored user with the subject's id |
| Api.FavoriteIsForTokenSubject | backend/routes/favorites.js:5-16 | a favorite added through the routes belongs to the subject of the verified token, never to anything in the path or body |
| Api.OnlyClaimsMatter | backend/middleware/authMiddleware.js:15-17 | two requests to a protected route whose tokens verify to the same claims get the same outcome |

## Left out

- `index.js` wiring (CORS, body parsing, static files, client injection, listen, the single-page fallback, the health route), the `/api/items` router mounted at `index.js:43` (required at line 36, its file is not part of this model) and `backend/routes/scraping.js` (an outbound webhook call with a mock fallback): plumbing and a network client, not decision logic.
- Password hashing, salting, token signing, verification and expiry: these are the opaque `Hasher`, `Comparer` and `Verifier` arguments; the token in a response is represented by the claims it signs.
- RatingRoutes.Mean: the stored and returned average is the exact quotient; the handler's `toFixed(1)` rounding to a one-decimal string is floating-point formatting and is not modelled.
- Concurrency: the upsert → re-read → write-back sequence and register's check-then-insert are modelled as sequential; races between requests are out of scope.
- Store internals: query building and error codes beyond the two the handlers branch on (23505 for a duplicate favorite, PGRST116 for "no row"). The unique constraints on (user, bakery) for ratings and favorites and on user ids are store guarantees (`Store.Valid`); no unique constraint on email is assumed, since the handlers never rely on one. With such a constraint in the store, the insert after a failed lookup for a taken email would fail and the handler would answer 500; the model covers that case as `insertFails`. A failing store call is an argument (`Faults`); a failing insert that is not a duplicate counts as failing before the duplicate check.
- Key generation and `created_at`: the new user's key is one above every key in use (`AuthRoutes.FreshId`), any fresh key would do; `created_at` is the clock argument.
- Foreign keys: a rating for a bakery that does not exist is not rejected unless the upsert fails; updating the `rating` of a bakery that does not exist changes nothing and is not an error, as an update with a filter matching no rows.
- JavaScript typing of body fields: `score` is an integer (the source does not enforce integrality, and a numeric string would pass its comparison); `bakeryId`, `username`, `email` and `password` are optional strings whose truthiness is "present and non-empty"; other values of other types are not modelled.
- Bakery rows other than their id and `rating` column are not modelled; my-favorites returns the joined bakery as that pair, or null when none exists.
- Log output and the exact `success` flags of the JSON bodies; statuses and the distinguishing messages are modelled.
- A hasher or token signer that throws (the handler would answer 500) is not modelled: `Hasher` is total and signing is not represented beyond its claims.
- `/me` for a user deleted after the token was issued is answered 500, not with a distinct not-found answer, because `.single()` errors on zero rows; the model follows the code. Duplicate registration is answered 400, as the code does.
