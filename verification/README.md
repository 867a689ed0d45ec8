# Mood tracker record service, modelled in Dafny

The system is a small HTTP backend for an emotion-detection app. Users sign
up and log in; a login returns a signed bearer token that is valid for 24
hours. With that token a user records the emotions the camera detected,
lists and deletes those mood records, asks for per-emotion statistics,
manages their own profile, and opens, updates and lists detection sessions.
Everything is stored in three SQLite tables: `users`, `mood_records` and
`sessions`.

The model is a functional state machine. `Schema.State` holds the three
tables as maps from id to row. It also holds the three AUTOINCREMENT
counters, which start at 1, never go back and stop at the largest SQLite
INTEGER, and a clock in whole seconds. `CURRENT_TIMESTAMP` reads that clock.
A handler that writes is a pure function from a state and its request to
the next state and a `Response`. A read-only handler returns only the
`Response`. A `Response` is either `Ok` with the value, or `Fail` with one
of `Validation` (400), `MissingToken` and `InvalidToken` (401 from the
guard), `BadCredentials` (401 from login), `Forbidden` (403), `NotFound`
(404), `Conflict` (409) and `ServerError` (500). The listing endpoints are
methods, because they pick an order of a map's keys. `Requests.Run` applies
any sequence of the writing requests, so properties can be stated about
the service over time.

The token guard (`token_required`) is `Auth.Authenticate`. `Auth.Guarded`
puts it in front of a handler. The handlers themselves receive the caller's
id, as in the source. Tokens and password hashes are modelled concretely but
with the cryptography as parameters. `Tokens.Config` carries the secret key,
a keyed MAC and a key-derivation function. A token is the MAC of its payload,
a dot, and the payload. The payload holds the user id, the expiry and the
email, each encoded canonically. So `Tokens.Verify` accepts exactly the
tokens `Tokens.Issue` produced under the same key. It accepts them only while
the clock is strictly before the expiry, as PyJWT does.

Integers taken from the request are bound as SQLite INTEGER parameters. A
value outside the signed 64-bit range makes Python's `sqlite3` raise, and
the framework answers 500. The model gives `ServerError` there, for the
`limit` parameter, a record or session id in the path, and the
`emotions_detected` field.

`Properties.*KeepsValid` states that every handler preserves the schema's
constraints, packaged as `Schema.Valid`:
- emails are unique;
- every row's id was issued by its counter, which stays within the INTEGER range;
- every record and session belongs to an existing user;
- no timestamp lies in the future;
- no session ends before it starts.

`Requests.RunKeepsValid` extends this to any sequence of requests.

The model keeps the code's behaviour, including two points a reader might
not expect:
- `PUT /sessions/<id>` answers 403 both for a missing session and for
  someone else's. It never answers 404.
- Ending a session that has already ended moves its end time to the current
  time again. It is not a no-op. See `Properties.EndingAgainRestamps`.

There is one exception. `Mood.CreateMoodRecord` and `App.CreateSession`
insert with the schema's declared foreign key enforced, which the code as
written does not do. The inserts as written are `Findings.CreateMoodRecordAsWritten`
and `Findings.CreateSessionAsWritten`, and "## Findings" below explains the
difference.

## Model

| member | source | states |
|---|---|---|
| Auth.Authenticate | backend/routes_auth.py:11-26 | no or empty header gives MissingToken; any other header is accepted, with the caller's id, only if it is a token issued under the key for a user id and not yet expired, with or without the "Bearer " prefix; otherwise InvalidToken |
| Auth.BearerPrefixOptional | backend/routes_auth.py:19-21 | a token authenticates the same with and without the "Bearer " prefix |
| Auth.AuthenticateIssued | backend/routes_auth.py:18-25 | an issued token authenticates its user id exactly while the clock is before its expiry; a token without a user id never does |
| Auth.Guarded | backend/routes_auth.py:11-26 | a rejected request never reaches the handler and leaves the state unchanged; an accepted one runs the handler with the token's user id |
| Auth.Signup | backend/routes_auth.py:28-58 | Validation iff a field is missing or empty; ServerError iff the user id sequence is exhausted, ahead of the UNIQUE check; Conflict iff the email is already registered; otherwise one new user with the next id, the given name and email, a hash that checks against the password, created now; nothing else changes |
| Auth.UserWithEmail | backend/routes_auth.py:73-74 | finds a user with that email iff there is one; under unique emails it is that user |
| Auth.Login | backend/routes_auth.py:60-99 | Validation iff email or password is missing; with unique emails, success iff some user has that email and password; on success the user's id, name and email and a token for them expiring 24 hours from now |
| Tokens.HashPassword | backend/routes_auth.py:38 | the stored hash checks against the password it was made from |
| Tokens.Verify | backend/routes_auth.py:21 | a token verifies only if it is exactly the token issued for the decoded claims and the clock is before their expiry |
| Tokens.VerifyIssued | backend/routes_auth.py:85-89 | an issued token decodes back to its own claims while unexpired and is rejected from its expiry on |
| Tokens.ParseEncodeClaims | backend/routes_auth.py:85-89 | decoding an encoded token payload returns the claims that were encoded |
| Mood.CreateMoodRecord | backend/routes_mood.py:7-35 | Validation iff the emotion is missing or empty or the confidence is missing; ServerError iff the id sequence is exhausted or the caller has no account, as an enforced foreign key gives; otherwise exactly one new record with the next id, owned by the caller, stamped now, with nothing else changed |
| Mood.GetMoodRecords | backend/routes_mood.py:37-61 | ServerError iff the limit is outside the INTEGER range; otherwise only the caller's records, each once, newest first: min(100, their count) of them without a limit, min(limit, their count) with a non-negative one, all of them with a negative one; no record left out is newer than a returned one |
| Collections.TopByKey | backend/routes_mood.py:46 | ORDER BY key DESC LIMIT n: distinct keys of the table, key non-increasing, min(n, size) of them or all of them, none omitted with a larger key than a returned one |
| Mood.GetMoodRecord | backend/routes_mood.py:63-87 | ServerError iff the id is outside the INTEGER range; NotFound iff there is no such record at all; Forbidden iff it is someone else's; otherwise the record |
| Mood.DeleteMoodRecord | backend/routes_mood.py:89-110 | the same ServerError, NotFound and Forbidden split; on success exactly that record is removed and nothing else changes |
| Stats.EmotionStats | backend/routes_mood.py:117-123 | GROUP BY emotion ORDER BY count DESC: one entry per emotion present, each with its record count and the mean of its confidences, counts non-increasing, counts adding up to the number of records |
| Stats.GroupAllCorrect | backend/routes_mood.py:118-121 | grouping gives one group per emotion, holding that emotion's count and confidence sum, and the counts add up to the number of records |
| Stats.SortByCount | backend/routes_mood.py:122 | the counts are non-increasing, the length is kept and the same groups occur; with Stats.SortByCountPermutes, a reordering |
| Stats.InsertPermutes | backend/routes_mood.py:122 | inserting a group adds exactly that group to the multiset of groups |
| Stats.SortByCountPermutes | backend/routes_mood.py:122 | sorting keeps the multiset of groups: each group occurs as often as before |
| Mood.GetEmotionStats | backend/routes_mood.py:112-135 | one entry per emotion among the caller's records, each count being the number of the caller's records with it, largest first, counts adding up to the caller's record count, averages as in Stats.EmotionStats |
| App.GetUser | backend/app.py:21-42 | Forbidden iff the id is not the caller's; NotFound iff the account is gone; otherwise its id, name, email and creation time, never the hash |
| App.UpdateUser | backend/app.py:44-62 | Forbidden iff the id is not the caller's; ServerError iff the body is JSON null, which raises outside any handler code; otherwise only the full name changes, and only when a non-empty one is given |
| App.DeleteUser | backend/app.py:64-81 | Forbidden iff the id is not the caller's; otherwise the account, all its records and all its sessions are removed, and all other rows are kept |
| App.CreateSession | backend/app.py:83-100 | ServerError iff the id sequence is exhausted or the caller has no account, as an enforced foreign key gives; otherwise one new session of the caller's, with the next id, started now, not ended, counter 0, with nothing else changed |
| App.UpdateSession | backend/app.py:102-135 | ServerError iff the session id is outside the INTEGER range, or the session is the caller's and the body is JSON null or the counter is outside that range; Forbidden iff the session is missing or someone else's; otherwise the counter is overwritten when given and the end time is set to now when ending is asked; the rest is unchanged |
| App.GetSessions | backend/app.py:137-160 | all of the caller's sessions and only those, each once, latest start first |
| Schema.Tick | backend/db_init.py:19 | time moves forward only, and the tables do not change with it |
| Properties.EmptyValid | backend/db_init.py:13-44 | the freshly created database satisfies the schema's constraints |
| Properties.TickKeepsValid | backend/db_init.py:13-44 | the constraints survive the passing of time |
| Properties.SignupKeepsValid | backend/routes_auth.py:43-56 | signup keeps emails unique and the constraints intact |
| Properties.CreateMoodRecordKeepsValid | backend/routes_mood.py:22-26 | creating a record keeps the constraints, owners included |
| Properties.DeleteMoodRecordKeepsValid | backend/routes_mood.py:106-107 | deleting a record keeps the constraints |
| Properties.UpdateUserKeepsValid | backend/app.py:56-59 | a name change keeps the constraints |
| Properties.DeleteUserKeepsValid | backend/app.py:74-78 | the cascading account deletion leaves no record or session without its owner |
| Properties.CreateSessionKeepsValid | backend/app.py:90-91 | creating a session keeps the constraints |
| Properties.UpdateSessionKeepsValid | backend/app.py:118-130 | updating a session keeps the constraints; an end time is never before the start |
| Properties.SignupThenLogin | backend/routes_auth.py:28-99 | after a successful signup, logging in with the same email and password succeeds as the new user |
| Properties.SignupTwiceConflicts | backend/routes_auth.py:55-56 | signing up again with a registered email never succeeds and changes nothing: a conflict, unless the id sequence ran out |
| Properties.LoginFailsUniformly | backend/routes_auth.py:77-83 | an unknown email and a wrong password give the same failure |
| Properties.LoginTokenAuthenticates | backend/routes_auth.py:85-89 | a login's token authenticates that user, with or without the prefix, for 24 hours and not afterwards |
| Properties.MissingTokenReachesNoHandler | backend/routes_auth.py:15-17 | a request without a token reaches no handler and changes nothing |
| Properties.TokenForOneUserCannotDeleteAnothers | backend/routes_mood.py:102-104 | a valid token of one user cannot delete another user's record: the answer is Forbidden, or ServerError for an id outside the INTEGER range, and nothing changes |
| Properties.DeleteUserCascades | backend/app.py:74-76 | after deleting an account, none of its records or sessions can be reached: its records read as not found, its sessions are forbidden, and the account reads as not found |
| Properties.CreateThenGetMoodRecord | backend/routes_mood.py:22-24 | a created record reads back as created for its owner and is forbidden to anyone else |
| Properties.DeletedMoodIdNeverReused | backend/db_init.py:25 | a deleted record reads as not found and the next record created does not take its id |
| Properties.StatsExample | backend/routes_mood.py:117-123 | happy 0.8, happy 0.6 and sad 0.5 give happy twice at 0.7, then sad once at 0.5 |
| Properties.SessionEndRoundTrip | backend/app.py:124-128 | a session created and later ended has the current time as its end, not before its start |
| Properties.EmotionCounterLastWriteWins | backend/app.py:118-122 | for values within the INTEGER range, the counter keeps the last value written and does not accumulate |
| Properties.EndingAgainRestamps | backend/app.py:124-128 | ending an ended session again moves its end time to the current time |
| Properties.EmptySessionUpdateChangesNothing | backend/app.py:118-130 | an update naming neither field leaves the session as it was |
| Requests.ApplyKeepsValid | backend/db_init.py:13-44 | every writing request keeps the schema's constraints and moves no id sequence backwards |
| Requests.RunKeepsValid | backend/db_init.py:13-44 | any sequence of requests keeps the constraints and moves no id sequence backwards |
| Requests.IdsNeverReissued | backend/db_init.py:15 | a user, record or session id once issued is never issued again by any later create, whatever requests come in between, deleted rows included |
| Findings.CreateMoodRecordAsWritten | backend/routes_mood.py:19-33 | the insert as issued, with foreign keys unenforced: any caller id is stored as owner; it fails only when the id sequence is exhausted; exactly one record is added and nothing else changes |
| Findings.CreateSessionAsWritten | backend/app.py:87-98 | the session insert as issued, with foreign keys unenforced: it fails only when the id sequence is exhausted; otherwise one session with the next id and nothing else changed |
| Findings.AsWrittenAgreesForExistingCaller | backend/routes_mood.py:19-33 | for a caller whose account exists, both inserts as written are exactly the inserts with the foreign key enforced |
| Findings.StaleCallerOrphans | backend/db_init.py:5-7 | for a caller id without an account, the inserts as written create rows owned by nobody, and the enforced ones fail and change nothing |
| Findings.TokenOutlivesAccount | backend/routes_auth.py:18-25 | after signing up, logging in and deleting the account, the old token still authenticates the deleted id |
| Findings.DeletedAccountTokenLeavesOrphans | backend/routes_mood.py:7-35 | through the guard, the deleted account's token creates an orphan record as written, and gets an error with nothing changed when the foreign key is enforced |

## Left out

- HTTP, JSON parsing, Flask routing, CORS and the `/api/health` endpoint are left out. A request body is an `Option` of a record of optional fields. `None` stands for a JSON null body, and an absent field stands for a missing or null one. Bodies that are not objects, and fields of the wrong JSON type, are not modelled.
- SQLite connections, the busy timeout, commits and concurrent requests are left out. Each handler is one atomic step on the state.
- The wall clock is a natural number of seconds, advanced only by `Schema.Tick`. Timestamps are stored as those numbers, not as text.
- HMAC-SHA256 and PBKDF2 are parameters of `Tokens.Config`. Their cryptographic strength, such as unforgeability or collision resistance, is not modelled. The hard-coded secret key is just a value of the configuration.
- The token layout is a stand-in for a JWT. There is no base64url encoding and no header segment. Its one property the handlers rely on is kept: a token decodes only to the claims it was signed for.
- Mood.CreateMoodRecord: `float(data['confidence'])` raising on a non-numeric value is not modelled, because the confidence arrives already as a number.
- Stats.EmotionStats: the average is the exact mean. SQLite's floating-point AVG and Python's `round(…, 2)` are not modelled, because Dafny has no floating point.
- Stats.EmotionStats: the order of emotions with equal counts is not stated. SQLite leaves it unspecified.
- Mood.GetMoodRecords: the order of records with equal timestamps is not stated. SQLite leaves it unspecified.
- App.GetSessions: the same holds for sessions with equal start times.
- Auth.Login: under the schema's invariant at most one user has a given email. Without the invariant the model takes the least id.
- The 500 answers are modelled only for the failures the model can produce. They are a JSON null body in `update_user` (an uncaught AttributeError, which Flask answers with 500) and in `update_session` (caught by its `except Exception`), request integers outside the INTEGER range, exhausted id sequences, and the foreign-key failure of the corrected inserts. Other database errors, such as a locked file or a full disk, are not modelled.
- A token's user id outside the INTEGER range is not modelled. Binding it would raise in every handler that queries by the caller. Only login issues tokens, only for stored ids, and `Schema.IdsIssued` keeps those within the range.
- The `duration` column of `sessions` is never written by any handler. It stays absent.
- The browser scripts under `JS/` and the HTTP test script `backend/test_api.py` are not part of this model.

## Findings

| source | as written | input that shows it | evidently intended | confidence | as-written member | corrected member |
|---|---|---|---|---|---|---|
| backend/db_init.py:5-7 | The connection never enables SQLite's foreign keys, so the `FOREIGN KEY (user_id) REFERENCES users (id)` clauses are not enforced. The guard also does not check that the token's user still exists. | Sign up and log in as Alice, then delete Alice's account with her token. Then POST /mood-records or POST /sessions with the same token within 24 hours. The insert succeeds, and the new row belongs to a user that no longer exists. | Inserts for a user without an account fail, and nothing is stored. | not executed | Findings.DeletedAccountTokenLeavesOrphans | Mood.CreateMoodRecord |
| backend/app.py:83-100 | `create_session` inserts the caller's id unchecked, in the same way. | The same scenario, followed by POST /sessions. | The insert fails and no session is stored. | not executed | Findings.StaleCallerOrphans | App.CreateSession |

The corrected inserts are proved to keep every record and session owned by
an existing user. See `Properties.CreateMoodRecordKeepsValid` and
`Properties.CreateSessionKeepsValid`. The rest of the model uses them.
