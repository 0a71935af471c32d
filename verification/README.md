# PPgram server: verified model

PPgram is a QUIC chat server with Postgres tables for accounts, a Redis cache of usernames and an
in-memory registry of device sessions. This project models its stateful cores in Dafny 4.11 and
proves what they keep over every run, not only over single calls. `dafny verify dfyconfig.toml`
checks all of it.

## The cores

**Accounts** (`AccountTables`, `AccountRuns`, `StartedRows`, `AccountRequests`, `RequestRuns`,
`RequestLaws`, `RequestGrace`, `RequestGate`, `RequestDrain`, `AccountAnswers`, `RequestAnswers`,
`RequestTokens`, `AccountService`). The three tables are
maps and every SQL statement is one function on them, with the uniqueness constraints, foreign keys and
cascades of the schema. `AccountRuns` lets single statements, Redis commands, clock ticks and any
number of deletion workers interleave freely; `StartedRows` follows a deletion that was started and then
failed. `RequestRuns` makes one request, or one item of a worker, one step; `Refines` shows that its runs
are the statement-level runs of their requests, and `RequestGrace` reads the statement-level laws back
as laws of requests. `RequestGate` and `RequestDrain` follow the pending period and the deletion
workers through whole runs. `AccountAnswers`, `RequestAnswers` and `RequestTokens` say what each request
answers and changes in terms of the rows, of what was typed and of earlier answers alone, from
registration to login. `AccountService` holds the repositories and the auth service as classes
and methods, each proved against its function.

**Sessions** (`Sessions`, `SessionRegistry`, `SessionStore`, `SessionInit`, `SessionLoss`). Revocation
channels in every interleaving, the registry measured against its history, the registry as mutable
objects, the double-checked creation of user states as a small-step machine under one lock, and what
happens to a session whose user is being detached.

**Streams** (`Frames`, `QuicStreams`, `Updates`, `UpdateCuts`, `UpdateExchange`). The frame codec as
printer and parser, the write loops over a transport that answers each write as it likes, the numbered
update streams down to their bytes, what a retry after a cut-off send does to them, and a whole
conversation from SendUpdate to NextUpdate.

**Router** (`Routes`, `Routers`, `MiddlewareChain`). The path algebra, groups over Go slices whose
spare capacity `append` may reuse, and the re-entrant middleware chain.

**Password strings** (`Base64`, `PasswordFormat`). Printer and parser of the `$argon2id$` string.

`Text`, `Usernames`, `Options`, `Numbers` and `Bytes` hold what these share.

## Assumptions

- The server and the database read one clock that never goes back. Time is in microseconds.
- User ids and session tokens are drawn fresh, and the token hash is injective (`Sha256` is a
  constructor).
- Each SQL statement, each Redis command and each section under a lock is atomic.
- Case mapping leaves `[a-z0-9_]` alone. Nothing else about it is used.
- A password check depends on the password and the stored string only.

## Where a natural claim is false

The code is kept as it is; a concrete run shows the failure, and an equivalence says exactly when
the claim holds.

- *A cancel that removed the pending row keeps the user.* A worker may already hold a claim, because
  rescheduling clears `started_at`: `CancelCanBeLost` is such a run. `CancelledUserDeletableIff`:
  the user can still be deleted without a new schedule if and only if some worker holds a claim at
  the cancel.
- *A login by token returns a token for the user it read.* Rotation is keyed by the row id alone, so
  another user's login on the same device in between takes the row over: `RotationCanChangeHands`.
  `RotatedTokenOwner` gives the owner from the events in between.
- *A due user is deleted in the end.* After a failed delete the row stays started and is never claimed
  again: `FailedDeleteIsStuck`. `StartedDeletableIff`: it can still be deleted without a new schedule if
  and only if some worker holds it; `StuckUntilScheduled` says what stays.
- *The thirty days run from `scheduled_at`.* They run from the clock reading of the request:
  `StaleReadShortensGrace` is a run where they are fewer; `GraceFromRowIff` says when they are not.
- *A cancel that reports success leaves no pending row.* Its second statement may find a row that was
  scheduled again: `SuccessCanBeFalse`, and `SuccessIsTrueIff`.
- *A successful `WriteFrame` sent the frame.* The count returned for the header is ignored:
  `ShortHeaderCorrupts` turns one frame into another; `WriteFrame` states the equivalence.
- *A failed `WriteFrame` leaves a prefix of the frame.* Not after a header taken in part without an
  error: `FailureNeedNotLeavePrefix`, and `PrefixIff`.
- *Every update sent is accepted.* A send that went out but was reported as failed makes its number
  be used again (`LostAckRepeats`), and a frame cut off swallows what is written next
  (`RetryAfterCutMisread`). `DeliveredIff` is exact for the first kind when nothing follows the second,
  and `AlwaysArriveIff` for the second; `DeliveredWhenQuiet` needs only that nothing is written after a
  failed send that wrote something.
- *A middleware that does not call Next keeps the endpoint from running.* One before it that calls
  Next twice gets past it: `RefusalBypassed`, and `StopsIff`.
- *Invalidation reaches every session of a user.* A second login with the same user and device
  replaces the first in the registry: `SharedDeviceIsLeftBehind`, and `LeftBehindIff` says which
  sessions stay.
- *A session authenticated while its user is being detached is registered or taken.* Three runs lose
  one: `LostBetweenObtainAndInsert`, `LostInsideDetach`, `LostToStaleDetach`. `LostIff`: exactly when
  each of its insertions was in vain, that is, no detach emptied the state while the session was in it,
  and the call acted for another user, or a detach removed the user after the state was obtained, or a
  later insertion took its place.

The name of `ExistsActiveByUserID` suggests that only some rows count; its query counts every row,
started or not, and so does the model.

## Model

| member | source | states |
|---|---|---|
| `AccountTables.UserStatementsConsistent` | database/users.go:42-53 | inserting a user and deleting one with its cascade keep every schema constraint: unique names, devices and hashes, tokens and pending rows only of existing users |
| `AccountTables.UpsertTokenRows` | database/user_tokens.go:79-89 | an admitted upsert changes exactly the row of its device, which gets the new owner and hash, keeps its id and becomes unrevoked; every other row is as it was |
| `AccountTables.UpsertTokenConsistent` | database/user_tokens.go:65-94 | the upsert keeps the constraints, also when it is refused and only the serial advances |
| `AccountTables.RotateTokenConsistent` | database/user_tokens.go:130-152 | rotation keeps the constraints, the hash uniqueness included |
| `AccountTables.PendingStatementsConsistent` | database/pending_account_deletions.go:48-136 | schedule, cancel and delete keep the constraints |
| `AccountTables.ClaimConsistent` | database/pending_account_deletions.go:143-157 | a claim keeps the constraints |
| `AccountRuns.RunSound` | database/users.go:45-51 | in every statement-level run, with any cache contents and failures, no two users share a username, no two rows a device or a hash, and every row belongs to a user |
| `AccountRuns.GoneForever` | database/users.go:117-134 | a deleted user never comes back |
| `AccountRuns.ClearRowIsNoOp` | server/auth/delete.go:102-104 | the clean-up after ErrUserNotFound never finds a row: the cascade has removed it |
| `AccountRuns.OriginOf` | database/pending_account_deletions.go:57-65 | a pending row comes from the last schedule of its user, carries that request's clock reading plus 2,592,000 seconds, and no cancel removed a row since |
| `AccountRuns.GracePeriod` | server/auth/delete.go:86-112 | grace period: a user row disappears only at a worker that has held its claim without a break, and that claim was made at least 2,592,000 seconds, thirty days, after a schedule of the same user with no reschedule and no effective cancel in between |
| `AccountRuns.GraceFromRowIff` | server/auth/delete.go:31-32 | a row is safe for thirty days from being written if and only if the clock reading its date was computed from was current |
| `AccountRuns.ClaimSticks` | database/pending_account_deletions.go:138-157 | after a claim, and until the next schedule, the row is started or gone |
| `AccountRuns.ClaimOnce` | database/pending_account_deletions.go:138-157 | two claims of one user, by any workers, have a schedule between them: each schedule is claimed at most once |
| `AccountRuns.CancelAfterClaimFails` | database/pending_account_deletions.go:115-136 | between a claim and the next schedule a cancel changes nothing |
| `AccountRuns.StaleClaimMeansReschedule` | database/pending_account_deletions.go:60-63 | a worker holds a claim on an unstarted row only if the user was scheduled again after that claim |
| `AccountRuns.UnheldSurvives` | server/auth/delete.go:40-62 | a user that nobody holds and that has no row survives until it is scheduled again |
| `AccountRuns.CancelledUserDeletableIff` | server/auth/delete.go:40-62 | after an effective cancel, some continuation deletes the user without scheduling it again if and only if some worker holds a claim on it |
| `AccountRuns.DeletionAfterCancel` | server/auth/delete.go:40-62 | if nobody held the user at an effective cancel, a later deletion rests on a schedule after that cancel that was thirty days old when claimed |
| `StartedRows.StuckUntilScheduled` | server/auth/delete.go:106-107 | a started row that no worker holds stays as it is, and its user too, until the user is scheduled again: no claim, no cancel, no deletion |
| `StartedRows.StartedDeletableIff` | server/auth/delete.go:106-107 | a user with a started row can still be deleted without a new schedule if and only if some worker holds it |
| `StartedRows.FailedDeleteIsStuck` | server/auth/delete.go:106-107 | a concrete run: a claim, a failed delete, and no continuation without a schedule deletes the user |
| `AccountRuns.CancelCanBeLost` | database/pending_account_deletions.go:60-63 | a concrete run: claim, reschedule, effective cancel, and the first worker deletes the user |
| `AccountRuns.StaleReadShortensGrace` | server/auth/delete.go:31-32 | a concrete run: the clock is read before the row is written, and the row is claimed less than thirty days after its scheduled_at |
| `AccountRuns.PendingAfterCancelIff` | database/pending_account_deletions.go:121-135 | at any point after a cancel an unstarted row of the user stands if and only if the user was scheduled again since and nothing has started or removed that row |
| `AccountRuns.SuccessIsTrueIff` | database/pending_account_deletions.go:121-135 | when a cancel that removed nothing reports success after its second statement, the row is gone if and only if the user was not so scheduled between the two statements |
| `AccountRuns.SuccessCanBeFalse` | database/pending_account_deletions.go:121-135 | a concrete run: a started row, a cancel, a reschedule before the check, and success reported with the deletion still pending |
| `AccountRuns.LastWriteOf` | database/user_tokens.go:65-152 | the hash in a token row is the one last written to it |
| `AccountRuns.OneTokenPerDevice` | database/user_tokens.go:45-55 | at every point a device has one row and exactly that row is selected by its hash |
| `AccountRuns.SupersededForever` | database/user_tokens.go:79-142 | a token superseded by an upsert or a rotation, or whose row was removed, is never accepted again |
| `AccountRuns.RotatedTokenOwner` | database/user_tokens.go:138-142 | a row read at one point belongs at a later one to whoever upserted its device last in between, else to the user it was read for |
| `AccountRuns.RotationCanChangeHands` | server/auth/auth.go:163-204 | a concrete run in which a rotated token is accepted for a user other than the one it was read for |
| `AccountRequests.KeysAreNames` | server/auth/delete.go:114-125 | with valid usernames the cache keys dropped with a set of users are their usernames |
| `AccountRequests.ItemsAreRound` | server/auth/delete.go:99-111 | working through distinct claimed users one by one comes to removing them all at once with tokens, pending rows and cache keys |
| `AccountRequests.ClaimThenRound` | database/pending_account_deletions.go:152-156 | deleting a claimed batch leaves no trace of the claim |
| `AccountRequests.RoundsDelete` | server/auth/delete.go:86-112 | r rounds with nothing in between delete min(k, 50 r) of the k due users, earliest first, and touch nothing else |
| `AccountRequests.Drain` | server/auth/delete.go:86-112 | ceil(k / 50) such rounds remove exactly the k due users with everything that belongs to them |
| `RequestDrain.DueAfter` | database/pending_account_deletions.go:138-178 | over any stretch of a run with nothing newly due, each claim by any worker takes fifty of the due rows or all of them |
| `RequestDrain.DrainInTraffic` | server/auth/delete.go:86-112 | amid any other requests and any number of workers, with no failing worker and nothing newly due, ceil(k / 50) claims are enough: none of the k is due at the end, the users removed are exactly those claimed, all were due at the start, and whoever was due and survives was rescheduled or cancelled while due |
| `RequestDrain.DrainsExactly` | server/auth/delete.go:86-112 | if nobody due is rescheduled or cancelled, exactly the k due users are gone, with their tokens, pending rows and cache keys |
| `RequestDrain.StuckUntilScheduled` | server/auth/delete.go:106-107 | over requests: once the claim of a started row is lost, user and row stay through any requests until the user is scheduled again |
| `RequestDrain.DueIff` | database/pending_account_deletions.go:144-148 | a user may be claimed exactly when it was scheduled at least 2,592,000 seconds ago and neither scheduled again nor cancelled nor claimed since |
| `RequestRuns.RequestIsStatements` | server/auth/auth.go:44-204 | every request, and every item of a worker, is a sequence of statements each allowed at its point, with the same outcome |
| `RequestRuns.Refines` | server/auth/delete.go:20-112 | every request-level run is the statement-level run made of its requests' statements in order, and passes through the same worlds between requests |
| `RequestGrace.GracePeriod` | server/auth/delete.go:20-112 | grace period over requests: a user disappears only when a worker processes it, and that worker claimed it at least 2,592,000 seconds after a schedule request of the user, with no schedule and no effective cancel in between |
| `RequestGrace.ClaimOnce` | database/pending_account_deletions.go:138-157 | two claims of one user by any workers have a schedule request of it between them |
| `RequestGrace.DeletionAfterCancel` | server/auth/delete.go:40-62 | if nobody held the user at an effective cancel, a later deletion rests on a schedule request after that cancel that was thirty days old when claimed |
| `RequestRuns.LoginByTokenRow` | server/auth/auth.go:163-204 | login by token acts on the one row with the presented hash: it is refused while the user is pending and otherwise rotates that row and returns its user and device |
| `RequestRuns.RowOrigin` | server/auth/auth.go:95-198 | a token row is as it was before the request, or exactly as the response announced and with a hash never used before |
| `RequestRuns.IssuedBy` | server/auth/auth.go:95-198 | every token row stems from a response that handed out its token for that user and device |
| `RequestRuns.TokenAcceptedOnce` | server/auth/auth.go:163-204 | each token is accepted at most once in a run |
| `RequestRuns.TokenYieldsItsOwner` | server/auth/auth.go:163-204 | an accepted token was handed out earlier and logs in the user and device it was handed out for; that user exists and has no deletion pending |
| `RequestRuns.IssuedOnce` | server/auth/auth.go:289-297 | a token is handed out by one request only |
| `RequestRuns.DeletedUsersTokensRefused` | database/user_tokens.go:47-47 | no token handed out for a user is accepted once that user is deleted |
| `AccountAnswers.IdentifyIff` | server/auth/auth.go:118-142 | name and password identify a user exactly when the name as typed is a spelling of the user's and the password is not blank and verifies against the user's stored hash |
| `AccountAnswers.LoginWithPassword` | server/auth/auth.go:112-161 | with a user's name and password, in any consistent tables: a missing device is reported first, then a pending deletion; otherwise that user gets the token, in the row of the device alone |
| `AccountAnswers.LoginRefused` | server/auth/auth.go:118-142 | with nobody's name and password nothing changes and the answer is InvalidCredentials, or DeviceIdRequired when the device is blank |
| `AccountAnswers.LoginWithToken` | server/auth/auth.go:163-204 | with the token of a row: refused while its user's deletion pends, otherwise that row alone gets the new hash and its user and device are answered |
| `AccountAnswers.TokenRefused` | server/auth/auth.go:169-180 | a blank token and one whose hash no row has are told apart, and change nothing |
| `AccountAnswers.ScheduleWithPassword` | server/auth/delete.go:20-38 | with a user's name and password, the row is due 2,592,000 seconds after the clock reading, unstarted, and that date is answered in Unix seconds; no other row changes |
| `AccountAnswers.CancelWithPassword` | server/auth/delete.go:40-62 | with a user's name and password: in progress is answered exactly when the user's row is started, and then nothing changes; Done exactly when no row is left, and then no other row has changed |
| `AccountAnswers.DeletionRefused` | server/auth/delete.go:127-147 | with nobody's name and password both schedule and cancel answer InvalidCredentials and change nothing |
| `AccountAnswers.Registered` | server/auth/auth.go:44-110 | a valid free name, as written, is stored lowered and without the spaces around it in table and cache, with the display name and the hash given, and one token is issued; nothing else changes |
| `AccountAnswers.RegisterRefused` | server/auth/auth.go:50-94 | every refusal, with the exact condition of each error in the order of the checks; nothing changes |
| `AccountAnswers.SpellingsAgree` | utils/username.go:7-9 | a valid name written in capitals or with spaces around it is treated by login, schedule and cancel as the name itself |
| `AccountAnswers.SpellingsRegisterAlike` | utils/username.go:7-9 | and by registration, with any cache and any faults of it |
| `RequestAnswers.PasswordLoginIff` | server/auth/auth.go:112-161 | in every run a password login succeeds exactly when a device is given and name and password are those of a user with no deletion pending, and it answers that user, the device and the drawn token |
| `RequestAnswers.WrongPasswordRefused` | server/auth/auth.go:118-142 | in every run nobody's name and password are refused and change nothing |
| `RequestAnswers.ScheduleAnswers` | server/auth/delete.go:20-38 | in every run a schedule with a user's password answers the time now plus 2,592,000 seconds and writes that row |
| `RequestAnswers.CancelAnswers` | server/auth/delete.go:40-62 | in every run a cancel with a user's password answers in progress exactly when the row is started, leaving everything as it is, and Done exactly when no row is left |
| `RequestAnswers.RowNeedsPassword` | server/auth/delete.go:127-147 | in every run a schedule or cancel changes no row but that of the user whose name and password it carries |
| `RequestAnswers.RegisterIff` | server/auth/auth.go:44-110 | in every run a registration succeeds exactly for a valid name that no user has, with a password and a device, and otherwise gives the error of the first of these that is wrong |
| `RequestAnswers.RegisterStores` | server/auth/auth.go:79-94 | a successful registration leaves exactly one new user, with the name as normalised and the hash given, and its cache entry |
| `RequestAnswers.RegisteredFits` | server/auth/auth.go:112-147 | from registration to deletion a user is identified by exactly the spellings of the registered name with the passwords that verify against the registered hash |
| `RequestAnswers.RegisteredLogin` | server/auth/auth.go:44-161 | registration to login: a login with a registered name and a device succeeds exactly for the passwords that verify against the registered hash while no deletion pends, as that user; a wrong password is InvalidCredentials |
| `RequestAnswers.PasswordsThatLogIn` | server/auth/auth.go:231-287 | with the stored format of the program, these are exactly the passwords whose derived key is that of the registered one |
| `RequestTokens.TokenLoginAnswers` | server/auth/auth.go:163-204 | in every run a login by token is decided by the row with the presented hash: which error is given when, and what a success answers |
| `RequestTokens.StandsUntil` | database/user_tokens.go:65-152 | a token handed out stays in its row until the next one is handed out for the device or its user is deleted |
| `RequestTokens.LastForDevice` | database/user_tokens.go:65-152 | a row holds the last token handed out for its device |
| `RequestTokens.AcceptedIff` | server/auth/auth.go:163-204 | judged from the answers of the run: a token is accepted if and only if none was handed out for its device since and its user exists with no deletion pending, and it logs in that user on that device; the two errors are told apart |
| `RequestLaws.CacheMatchesTable` | server/auth/delete.go:99-125 | at request level the cache keys are exactly the usernames in the table, all of them valid |
| `RequestLaws.RegisterNeedsNoCache` | server/auth/auth.go:64-94 | registration then gives the verdict, and leaves the tables, that it would without the cache |
| `RequestLaws.PendingGate` | server/auth/auth.go:143-196 | while a deletion row exists no request hands out a token for its user, and every token row of the user was already there, unchanged |
| `RequestLaws.ConcernedStep` | server/auth/auth.go:220-229 | with an unstarted row present, a login or reschedule of that user is refused a token and changes at most the row itself |
| `RequestLaws.UnconcernedStep` | server/auth/auth.go:44-204 | any other request is answered the same with and without that row |
| `RequestLaws.WindowErased` | server/auth/delete.go:20-62 | a whole window of requests with the row present, a stale claim outstanding or not, ends as the same requests without it, those about the user itself left out |
| `RequestLaws.ScheduleThenCancel` | server/auth/delete.go:20-62 | schedule, any requests that neither claim nor delete the user nor cancel it with its password, cancel: exactly the state the other requests alone give, so every later outcome is the same |
| `RequestGate.GateHolds` | server/middleware/auth.go:9-28 | in every run, while the user's row exists, a guarded request of its session enters nothing behind the auth middleware, provided each middleware before it calls Next at most once, and whatever those after it would do |
| `RequestGate.GateNeedsSession` | server/middleware/auth.go:9-28 | a request without an authenticated session enters nothing behind the auth middleware |
| `RequestGate.GateOpens` | server/middleware/auth.go:9-28 | without the row, and with every other middleware calling Next once, the endpoint runs exactly once |
| `RequestGate.PendingSince` | database/pending_account_deletions.go:94-113 | from a schedule request on the row exists until a request cancels it effectively or a worker processes the user |
| `RequestGate.NothingWhileScheduled` | server/auth/auth.go:220-229 | throughout that period no request hands out a token for the user and no guarded request of it gets past the auth middleware |
| `AccountService.Database.GetUserByUsername` | database/users.go:136-158 | a blank name is an error; otherwise the user with the trimmed name, or none |
| `AccountService.Database.CreateUser` | database/users.go:63-92 | blank fields are errors that change nothing; otherwise the trimmed row is inserted unless the name is taken |
| `AccountService.Database.DeleteUserByID` | database/users.go:117-134 | removes the user with its tokens and its pending row and returns the name |
| `AccountService.Database.UpsertActiveToken` | database/user_tokens.go:65-94 | a blank device is an error that changes nothing; otherwise the upsert, refused exactly by the foreign key or the hash uniqueness |
| `AccountService.Database.GetActiveByTokenHash` | database/user_tokens.go:96-128 | finds a row exactly when one with this hash is neither revoked nor expired |
| `AccountService.Database.RotateToken` | database/user_tokens.go:130-152 | the rotation, told apart from an unknown row, a zero id and a hash conflict |
| `AccountService.Database.Upsert` | database/pending_account_deletions.go:48-79 | a zero date is an error; otherwise the row is written anew and unstarted if the user exists |
| `AccountService.Database.DeleteByUserID` | database/pending_account_deletions.go:81-92 | removes the row and nothing else |
| `AccountService.Database.CancelIfNotStarted` | database/pending_account_deletions.go:115-136 | removes an unstarted row and says so; says whether a started one is there |
| `AccountService.Database.SelectDue` | database/pending_account_deletions.go:144-151 | the selection: min(limit, n) distinct rows of the n due ones that no other transaction has locked, none due later than such a row left out |
| `AccountService.Database.StartAll` | database/pending_account_deletions.go:152-171 | starts exactly the selected rows and returns them in order as they now are |
| `AccountService.Database.ClaimDue` | database/pending_account_deletions.go:138-178 | claims a batch of the earliest due rows that are not locked, fifty for a non-positive limit, and returns exactly the rows it started |
| `AccountService.Register` | server/auth/auth.go:44-110 | the method does to tables and cache, and answers, what the request function says, on every input, with or without a cache, and with either of its Redis commands failing |
| `AccountService.LoginByCredentials` | server/auth/auth.go:112-161 | the same for login by password |
| `AccountService.LoginByToken` | server/auth/auth.go:163-204 | the same for login by token |
| `AccountService.VerifyDeleteCredentials` | server/auth/delete.go:127-147 | the user that name and password identify, or none |
| `AccountService.ScheduleAccountDeletion` | server/auth/delete.go:20-38 | the same for scheduling, the clock being read at one time and the row written at another, with the date returned in Unix seconds |
| `AccountService.CancelAccountDeletion` | server/auth/delete.go:40-62 | the same for cancelling, also when there is no row or it is started |
| `AccountService.RemoveUsernameFromCache` | server/auth/delete.go:114-125 | drops the normalised name if it is valid |
| `AccountService.ProcessItem` | server/auth/delete.go:99-111 | one item: the user and its cache key go, or only the pending row when the user is gone already |
| `AccountService.ProcessDueAccountDeletions` | server/auth/delete.go:86-112 | one undisturbed round removes exactly a batch of the earliest due users from tables and cache, whatever the usernames |
| `AccountService.AuthMiddleware` | server/middleware/auth.go:9-28 | goes on exactly when the session has a user and a device, the database answers and the user has no pending row |
| `AccountService.HandleGuarded` | server/middleware/auth.go:9-28 | running a chain with the auth middleware in it, over the session, table and context objects, enters exactly what the guarded request of that session's user enters in the request-level runs |
| `Usernames.ValidUsername` | utils/username.go:11-31 | accepts exactly the non-empty names over a-z, 0-9 and underscore that neither start nor end with an underscore |
| `Usernames.ValidIsNormal` | utils/username.go:7-31 | a valid name is its own normal form |
| `Usernames.NormalizeIff` | utils/username.go:7-9 | the result is the one name of which the input is a spelling: letters that lower to it, with any space around |
| `Usernames.ValidIff` | utils/username.go:11-31 | the language of usernames, character by character |
| `Text.TrimPadded` | utils/username.go:7-9 | trimming takes off all white space at both ends and nothing else |
| `Sessions.AlwaysSound` | server/core/session/session.go:44-155 | in every interleaving: revoked exactly when the current channel is closed, every earlier channel closed, none closed twice, a revoked session not authenticated |
| `Sessions.HandedOutOpenIff` | server/core/session/session.go:126-155 | a channel handed out is open later if and only if the session was not revoked then and no Revoke came since |
| `Sessions.SignedInIff` | server/core/session/session.go:44-63 | in every interleaving a session is authenticated as a user, device and device name if and only if its last login with both ids given carried them, trimmed, and no Revoke came since; otherwise it has none of them |
| `Sessions.DeviceSession.Authenticate` | server/core/session/session.go:44-63 | the locked section: blank ids change nothing; a revoked session gets a new open channel |
| `Sessions.DeviceSession.Revoke` | server/core/session/session.go:137-155 | clears the identity and closes the current channel, once; closing a closed channel is excluded |
| `Sessions.DeviceSession.Revoked` | server/core/session/session.go:126-135 | the channel returned is closed if and only if the session is revoked |
| `SessionRegistry.EntryIsLatest` | server/core/session/session.go:65-94 | the entry of (user, device) is the session of the latest registered Authenticate since the user's last detach |
| `SessionRegistry.SignedInIff` | server/core/session/session.go:44-207 | the same for a session in the registry, judged from the logins and invalidations: the last login carried them, and no invalidation since was of a user one of whose devices the session was the latest to log in |
| `SessionRegistry.PresentIff` | server/core/session/session.go:65-94 | a user is in the table if and only if a login of it that the database knew was not followed by an invalidation |
| `SessionRegistry.RegistersIff` | server/core/session/session.go:65-94 | which logins register, judged from the history: both ids given, and the user known to the database or in the table |
| `SessionRegistry.InvalidateRevokesLatest` | server/core/session/session.go:175-207 | invalidation revokes exactly the sessions that are the latest of some device of the user and leaves every other one alone |
| `SessionRegistry.LeftBehindIff` | server/core/session/session.go:175-207 | a session is still authenticated as the user after the invalidation if and only if it was before and is the latest of no device of the user |
| `SessionRegistry.AuthenticatedIsListed` | server/core/session/session.go:93-93 | if every login registers and devices are not shared, every authenticated session is listed under its user and device |
| `SessionRegistry.InvalidateLeavesNobody` | server/core/session/session.go:175-207 | then no session stays authenticated as the invalidated user |
| `SessionRegistry.OthersUntouched` | server/core/session/session.go:175-207 | if each session serves one user, sessions of other users are untouched |
| `SessionRegistry.SharedDeviceIsLeftBehind` | server/core/session/session.go:93-93 | a concrete run in which a shared device leaves a session behind |
| `SessionStore.UserState.TakeAll` | server/core/session/session.go:196-202 | the loop returns every listed session and leaves the device map empty |
| `SessionStore.RevokeAll` | server/core/session/session.go:175-184 | the loop revokes every listed session, also one listed twice, and no other session |
| `SessionStore.UserStates.DetachUserSessions` | server/core/session/session.go:186-207 | takes exactly that user out of the table and returns exactly its sessions |
| `SessionStore.UserStates.InvalidateUserSessions` | server/core/session/session.go:175-184 | the objects change exactly as the registry value says for an invalidation |
| `SessionStore.UserStates.Authenticate` | server/core/session/session.go:44-95 | the objects change exactly as the registry value says for a login, also when the user is unknown |
| `SessionInit.AlwaysSound` | server/core/session/session.go:65-94 | mutual exclusion, and a call about to create sees its user absent, in every interleaving with any calls and detaches |
| `SessionInit.CreatedOnlyWhenAbsent` | server/core/session/session.go:65-88 | a state enters the map only for a user that is not in it: no creation replaces a state |
| `SessionInit.OneStatePerUser` | server/core/session/session.go:65-94 | without detaches all calls of a user obtain one state, and a finished call's device is in it |
| `SessionInit.NobodyGivesUp` | server/core/session/session.go:70-80 | if every user lookup succeeds no call returns without a state |
| `SessionInit.EntryInserted` | server/core/session/session.go:89-94 | whatever a state lists was put there by a finished call with that device and session |
| `SessionInit.AlwaysDistinct` | server/core/session/session.go:81-86 | no two users ever have the same state |
| `SessionInit.EveryDeviceRegistered` | server/core/session/session.go:65-94 | with successful lookups and no detach, every returned call finds its device registered in the one state of its user, for a session that authenticated as that user |
| `SessionInit.StillCurrentIff` | server/core/session/session.go:65-207 | with detaches, the state a call obtained at m is still the user's at n if and only if no detach removed the user in between |
| `SessionLoss.OneOwner` | server/core/session/session.go:65-94 | a state is only ever one user's |
| `SessionLoss.LostIff` | server/core/session/session.go:89-207 | a session, however often it authenticates, is at any point neither listed in the user's state nor taken by a detach if and only if each of its insertions was in vain: no detach emptied the state while the session was in it, and the call acted for another user, or a detach removed the user after the call obtained the state, or a later insertion took its place |
| `SessionLoss.LostUnderDetachIff` | server/core/session/session.go:89-207 | a session inserted once and not overwritten is lost if and only if some detach removed the user since the state was obtained and none emptied the state since the insertion |
| `SessionLoss.LostBetweenObtainAndInsert` | server/core/session/session.go:89-207 | a concrete run: the user is detached between obtaining the state and the insertion |
| `SessionLoss.LostInsideDetach` | server/core/session/session.go:195-205 | a concrete run: the insertion falls between the two halves of one detach, is listed, and is dropped |
| `SessionLoss.LostToStaleDetach` | server/core/session/session.go:186-207 | a concrete run: a detach that found an older state removes the user's new one uncleared |
| `Frames.DecodeOfEncode` | server/transport/stream.go:64-116 | reading an encoded frame gives its type and payload, its length filled in, and what follows |
| `Frames.WireFormat` | server/transport/stream.go:71-94 | the bytes: the type, the payload length from the most significant byte on, the payload |
| `Frames.WholeIff` | server/transport/stream.go:102-113 | a frame is read exactly when as many bytes are there as its header says |
| `Frames.EncodeOfDecode` | server/transport/stream.go:64-116 | a frame read re-encodes to the bytes it was read from |
| `Frames.ProperPrefixIncomplete` | server/transport/stream.go:97-116 | what a cut-off write leaves is never read as a frame |
| `Frames.ReadBack` | server/transport/stream.go:64-116 | for every list of frames and every incomplete tail, reading returns the same types and payloads in order and then the tail |
| `Frames.SplitsIntoFrames` | server/transport/stream.go:97-116 | every byte string is its frames, re-encoded, followed by its incomplete tail |
| `Frames.SplitIsUnique` | server/transport/stream.go:97-116 | and that split is the only one |
| `Frames.CutOffStream` | server/transport/stream.go:64-116 | a stream cut off inside a frame still gives every frame before it |
| `QuicStreams.QuicStream.WriteLoop` | server/transport/stream.go:83-94 | sends a prefix, all of it on success, and stops exactly at the first answer that fails or takes nothing |
| `QuicStreams.LoopEnds` | server/transport/stream.go:83-94 | how many bytes go out and how the loop ends, judged from the first answer it cannot go on after |
| `QuicStreams.QuicStream.WriteFrame` | server/transport/stream.go:64-95 | what is sent and how it ends, for every transport: on success the whole encoding if and only if the header was taken whole |
| `QuicStreams.PrefixIff` | server/transport/stream.go:76-94 | what WriteFrame sends is a prefix of the encoding, for every payload of a length, if and only if the header is taken whole or nothing is taken after it |
| `QuicStreams.FailureNeedNotLeavePrefix` | server/transport/stream.go:76-94 | a concrete failed write that leaves no prefix of the frame |
| `QuicStreams.ShortHeaderCorrupts` | server/transport/stream.go:76-78 | a concrete transport answer, four header bytes without an error, after which WriteFrame succeeds and another frame is read |
| `QuicStreams.WillingIff` | server/transport/stream.go:64-95 | a list of frames goes out intact and without error if and only if each header is taken whole and no answer stops a payload |
| `QuicStreams.QuicStream.WriteFrames` | server/transport/stream.go:64-95 | WriteFrame in sequence: sent bytes and error for every transport, and the same equivalence |
| `QuicStreams.QuicStream.ReadFrame` | server/transport/stream.go:97-116 | reads exactly the first whole frame or fails having used everything up, EOF exactly at a boundary between header and payload |
| `QuicStreams.QuicStream.ReadFrames` | server/transport/stream.go:97-116 | ReadFrame until it fails: exactly the whole frames of the bytes, with EOF exactly when the tail is empty or a bare header |
| `QuicStreams.Exchange` | server/transport/stream.go:64-116 | frames written at one end through any willing transport and read at the other: the same types and payloads in order, lengths filled in, then EOF |
| `Updates.ServerUpdatesContext.SendUpdate` | server/router/context_updates_server.go:34-50 | number and end flag move only after a successful write; the bytes written and the answers used for every transport; nothing after an end, for a nil update or a revoked session |
| `Updates.UpdateOnWire` | server/router/context_base.go:117-132 | the bytes of a call: a frame of type 5 with the envelope of the next number; a first part of it when cut off, nothing when refused |
| `QuicStreams.QuicStream.WriteFrom` | server/transport/stream.go:118-155 | for every chunk size, reader and transport: the count is the number of bytes sent, these are the first the reader delivers, no error means all of them up to EOF, and an error is the reader's or the transport's |
| `Updates.ClientUpdatesContext.NextUpdate` | server/router/context_updates_client.go:37-56 | takes the next whole frame off the stream and accepts exactly the next number; reads nothing after an end or when revoked, and leaves its state alone on every error |
| `Updates.AcceptedIsGreedy` | server/router/context_updates_client.go:37-56 | for arbitrary input, accepted are exactly those whose number is the count accepted before them, until an end; numbers wrap at 64 bits |
| `Updates.GreedyIsUnique` | server/router/context_updates_client.go:37-56 | that subsequence is the only one with this property |
| `Updates.StreamNumbered` | server/router/context_updates_server.go:34-50 | whatever the calls, envelopes are numbered by the acknowledged ones before them and nothing follows an acknowledged end |
| `Updates.WholeDeliveredIff` | server/router/context_base.go:117-150 | the whole envelopes on the stream are all accepted in order if and only if none follows one that went out but was reported as failed |
| `Updates.WireShape` | server/router/context_base.go:117-132 | the bytes on the stream are those of the whole envelopes, followed by those of the one cut off if there is one |
| `Updates.DeliveredIff` | server/router/context_base.go:117-150 | over bytes, if nothing is written after a send that was cut off: the receiver gets exactly the envelopes that went out whole, and accepts them all if and only if none follows one that went out but was reported as failed |
| `Updates.DeliveredWhenQuiet` | server/router/context_base.go:117-150 | so everything that went out whole is delivered when nothing is written after a failed send that wrote at least one byte |
| `Updates.DeliveredInOrder` | server/router/context_base.go:117-150 | if each send succeeds or writes nothing, the bytes decode to the envelopes sent, accepted in order, numbered from 0, the end flag on the last exactly when the sender has ended |
| `Updates.EnvelopesSurviveFraming` | server/router/context_base.go:117-150 | with any marshal and unmarshal that are inverse, the framed bytes, whatever incomplete tail follows, decode to the same envelopes |
| `UpdateCuts.LostAckRepeats` | server/router/context_base.go:117-150 | a concrete run: a send reported as failed although it went out, and a retry whose envelope is rejected |
| `UpdateCuts.CutSwallows` | server/transport/stream.go:83-116 | a frame cut off inside its payload is read with its full length, its missing bytes taken from whatever is written next |
| `UpdateCuts.MarshalInverts` | server/router/context_base.go:117-150 | the encoding used in the next run is decoded back exactly, for every envelope |
| `UpdateCuts.RetryAfterCutMisread` | server/router/context_base.go:117-150 | a concrete run with an inverse pair of encodings: after a send cut off one byte short, a retry makes the receiver accept an update nobody sent |
| `UpdateCuts.ReadAfterCut` | server/transport/stream.go:97-116 | if a cut frame and what follows it are read as a frame, the first byte of what follows is in its payload, or its payload begins with the sixth byte |
| `UpdateCuts.AlwaysArriveIff` | server/router/context_base.go:117-150 | the frames of the whole envelopes arrive, whatever the messages of given lengths say, if and only if nothing is written after a send that was cut off, for every list of calls in which whoever goes on after a cut gets some later envelope out whole |
| `UpdateExchange.AlwaysFaithful` | server/transport/stream.go:64-95 | the way a transport makes calls turn out always meets the hypothesis of the delivery results |
| `UpdateExchange.SendUpdates` | server/router/context_updates_server.go:34-50 | a list of SendUpdate calls over any transport: sender state, remaining answers and, unless a header is lost in part, the bytes on the stream |
| `UpdateExchange.ReadUpdates` | server/router/context_updates_client.go:37-56 | NextUpdate until the end or until nothing is left hands out exactly the envelopes the receiver accepts, in order |
| `UpdateExchange.HandedOutIff` | server/router/context_updates_client.go:37-56 | all of a stream is handed out, in order, if and only if the receiver accepts all of it |
| `UpdateExchange.Converse` | server/router/context_base.go:117-150 | updates sent at one end and read at the other: NextUpdate hands out exactly the envelopes that went out whole if and only if none follows one reported as failed, when nothing is written after a cut; in particular when nothing is written after a failed send that wrote something |
| `Routes.NormalizeRoute` | server/router/router.go:250-270 | the loop computes the normal form: the non-empty trimmed segments joined by dots, or "root" |
| `Routes.NormalIdempotent` | server/router/router.go:250-270 | normalising twice is normalising once, for every string |
| `Routes.NormalOfParts` | server/router/router.go:250-270 | the normal form of any path from its parts between dots: those that are not blank, trimmed, joined by dots, or "root" |
| `Routes.JoinIsConcat` | server/router/router.go:272-283 | joining paths is concatenating their segment lists, "root" being the empty one |
| `Routes.JoinAssociative` | server/router/router.go:272-283 | joinRoute is associative on all strings |
| `Routes.JoinIdentity` | server/router/router.go:272-283 | "" and "root" are identities up to normalisation, and a join is normal |
| `Routes.PatternIsWords` | server/router/router.go:19-19 | the pattern matches exactly when every dot-separated part is a word |
| `Routes.PatternIff` | server/router/router.go:19-19 | character by character: letters, underscores and dots, no dot at an end and no two in a row |
| `Routes.NormalOnAccepted` | server/router/router.go:164-166 | normalisation is the identity on every non-empty accepted route |
| `Routes.AcceptedTrimmed` | server/router/router.go:146-166 | an accepted route is its own trimmed form |
| `Routes.JoinAccepted` | server/router/router.go:272-290 | accepted inputs join to an accepted, non-empty route |
| `Routers.Append` | server/router/router.go:67-72 | append in place or into a new array: the result is the old elements and the new ones, and the old slice still reads the same |
| `Routers.Router.Use` | server/router/router.go:71-73 | extends this router's list and changes no other router's and no route's, even when written in place |
| `Routers.Router.Group` | server/router/router.go:59-69 | a child with the joined prefix and a copied list, or a panic on an invalid prefix; nothing existing changes |
| `Routers.Router.Register` | server/router/router.go:220-237 | adds one route with the joined path and the copied list, or panics on an invalid or duplicate path; every other route keeps its middleware |
| `Routers.Router.Lookup` | server/router/router.go:146-174 | a request finds a route if and only if its trimmed operation is a registered path, and then that route; every registered path is found by requesting it |
| `Routers.RegisterAndRequest` | server/router/router.go:146-237 | requesting the full path of a route just registered finds it, with the router's middleware followed by its own |
| `Routers.NestedGroups` | server/router/router.go:59-69 | nested groups register the same paths and middleware as one group with the joined prefix and the concatenated list |
| `MiddlewareChain.BaseContext.Next` | server/router/context_base.go:56-65 | a call of Next ends with the index and the log that the recursion on call counts says, and terminates |
| `MiddlewareChain.RunOfCalls` | server/router/context_base.go:56-65 | T calls enter positions 0 to min(T, n) - 1 once each in order and run the endpoint max(0, T - n) times |
| `MiddlewareChain.NextConserves` | server/router/context_base.go:56-65 | calls made are calls requested by the middlewares entered, plus one, and until Next returns one is always outstanding |
| `MiddlewareChain.TotalIsLeast` | server/router/context_base.go:56-65 | the total number of calls is the least solution of that equation |
| `MiddlewareChain.AtMostOnce` | server/router/context_base.go:56-65 | if each middleware calls Next at most once, the endpoint runs once when all do and never otherwise |
| `MiddlewareChain.StopsIff` | server/router/context_base.go:56-65 | a middleware that does not call Next stops the chain there if and only if some first t of the positions up to it call Next less than t times in all |
| `MiddlewareChain.RefusalHolds` | server/router/context_base.go:56-65 | so it does whenever each middleware before it calls Next at most once |
| `MiddlewareChain.RefusalBypassed` | server/router/context_base.go:56-65 | a concrete chain: a middleware that calls Next twice gets past a refusal to the endpoint |
| `Base64.Base64RoundTrip` | server/auth/auth.go:247-276 | decoding inverts encoding for every byte string, and the text holds no dollar sign |
| `Base64.EncodesBits` | server/auth/auth.go:247-249 | the encoding symbol by symbol: each six bits from the highest on, zero bits at the end, no padding |
| `Base64.Alphabet` | server/auth/auth.go:247-249 | the alphabet |
| `Base64.DecodesIff` | server/auth/auth.go:272-279 | a text decodes exactly when it holds symbols and line breaks only and not one symbol beyond a multiple of four |
| `PasswordFormat.ParseOfPrint` | server/auth/auth.go:250-281 | whatever is printed parses back to the same parameters, salt and hash, and an empty hash is rejected |
| `PasswordFormat.PrintInjective` | server/auth/auth.go:250-250 | different values print differently |
| `PasswordFormat.VerifyIff` | server/auth/auth.go:253-287 | what verifying a printed string gives, for all parameters and hashes: an error when a number does not fit or the hash is empty, a panic of Argon2id at zero iterations or lanes, otherwise success exactly when the recomputed value equals the stored hash |
| `PasswordFormat.HashThenVerify` | server/auth/auth.go:231-287 | a password verifies against its own hash, and another one exactly when the two values collide |
| `PasswordFormat.StoredForm` | server/auth/auth.go:231-250 | the stored string written out, with its version and its three parameters |
| `PasswordFormat.ForeignRefused` | server/auth/auth.go:253-260 | a string that names another scheme or version never verifies |

## Left out

- QUIC listener and connections, TLS, configuration, logging, startup panel: plumbing around libraries.
- Generated protobuf code: marshalling is any function with an inverse.
- Handlers and status codes, transfer and response contexts: one-branch error mapping and thin wrappers.
- `ReadTo` (delegates to `io.CopyBuffer`) and `NewUID` (randomness and wall clock).
- Argon2id, SHA-256 and random generation: parameters and the stated assumptions.
- Database and cache connectivity errors, except that a worker's delete may fail (`LoseItem`) and that Redis commands may fail at statement level.
- User ids as strings: they are values, so their trimming and the checks for blank ids are not modelled.
- The columns `created_at`, `issued_at` and `last_used_at`, which nothing reads back into a decision.
- The `username:` prefix of Redis keys: keys stand for the names.
- Nil receivers, nil streams and nil readers.
- The connection close in `CloseUserSessions`; its detach and revoke are those of `InvalidateUserSessions`.
- SessionStore.UserStates.Authenticate: one atomic step; the interleavings inside it are in `SessionInit`.
- AccountService.Database.CancelIfNotStarted: both statements in one step; `SuccessIsTrueIff` has them apart.
- AccountRequests.Drain: rounds with nothing in between, and `AccountRequests.RoundsDelete` likewise; `RequestDrain` has them amid other requests.
- Frames.ReadBack: speaks of the bytes of an encoding; `Exchange` has the writes and reads that carry them.
- AccountService.Register: the printed password hash, which is never empty, and the drawn id and token are parameters.
- MiddlewareChain.BaseContext.Next: a middleware is the number of times it calls Next, which loses nothing since no position is entered twice; its other effects and the errors it returns are not modelled.
- QuicStreams.QuicStream.WriteFrom: a reader has finitely many answers before its end, and the 64-bit byte count does not overflow.
- Updates.DeliveredIff: assumes that nothing is written after a cut-off send; `AlwaysArriveIff` is the converse, over all messages of given lengths.
- UpdateCuts.AlwaysArriveIff: says nothing of lists of calls that end in several cut-off sends with no whole envelope after the first of them.
- Routers.Router.Group: a panic is a null result, and in `Register` a result that is not ok.
