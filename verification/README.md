# OpsFlow-MS: a verified model of its stateful core

OpsFlow-MS is a multi-tenant cash backend. This project models the parts of it that hold state and
proves what they keep, over whole runs and, where reads and writes are separate, over every
interleaving.

| file | what it models |
|---|---|
| `LoginAttempts.dfy`, `LoginAttemptLaws.dfy` | the login lockout: in-memory store with lazy deletion, exponential lock, serial login runs |
| `LoginRetry.dfy` | the retry time of a locked login, on both stores |
| `LoginStoreComparison.dfy`, `LoginRedisLaws.dfy` | the Redis lockout store against the in-memory one, and alone |
| `RateLimit.dfy`, `RateLimitLaws.dfy` | the rate limit guard: fixed windows, cleanup, one-way failover from Redis |
| `RateLimitAnswers.dfy` | Retry-After on Redis, and the remaining requests |
| `RateLimitFailover.dfy` | the failover with requests still waiting for Redis |
| `AuthSessions.dfy`, `AuthSessionLaws.dfy` | refresh-token rotation as atomic database steps, every interleaving |
| `AuthAnswers.dfy` | exactly who is let in, what commits write, how long tokens live |
| `AuthSerial.dfy` | tokens and hashes; requests taken whole; what overlapping refreshes and resets do |
| `AuthRuns.dfy` | serial runs of those requests |
| `AuthOverlaps.dfy` | what requests in flight can still do to sessions revoked meanwhile |
| `AuthService.dfy` | the auth service as a class, each method tied to those steps |
| `Ledger.dfy` | callers, branches, movements; which branches a caller may act on |
| `CashMovements.dfy` | creating movements and moving them through the workflow |
| `Reports.dfy` | the paginated list and the dashboard figures |
| `ReportAnswers.dfy` | what the list and the dashboard answer, told from the query and the table |
| `Noninterference.dfy` | what a caller of one organization can learn of another |
| `Branches.dfy`, `Users.dfy` | branch, user and role administration |
| `RoleUpdates.dfy` | role updates that overlap |
| `Tenancy.dfy` | all of these as steps that interleave: tenant closure |
| `Metrics.dfy` | request counters keyed by an escaped label string |
| `Seed.dfy` | the demo-movement loops of the database seed |
| `Wrappers.dfy` | `Option`, `Result`, `Min`, `Max`, `Lookup` |

Objects that the source updates in place are classes (`LoginAttemptService`, `RateLimitGuard`,
`MetricsService`, `AuthService`, `CashMovementsService`, `UsersService`, `BranchesService`); each
method's contract equates its new state and its answer with a function of the old state, and the laws are
proved about those functions. Read-only code is functions.

## What the code was found to do

These are results about the code as it is, each with its exact condition or a run that shows it.

- Reuse detection never fires for a token the service issued. `docs/FRONTEND_API_CONTRACT.md:325` lists
  `403 AUTH_REFRESH_REUSE_DETECTED` for a refresh; a rotated token always gets the earlier 401, because its
  session is revoked before hashes are compared (`ReuseNeverDetected`, `RotatedTokenRefused`). In serial runs
  a token is accepted at most once (`AcceptedAtMostOnce`).
- Two refreshes of one token that both read before either commits are both accepted and leave two live
  sessions (`ConcurrentRefreshesBothAccepted`). Once a rotation of a session has committed, a second one is
  accepted later exactly when another refresh had read the session before that commit (`SecondRotationIff`).
- A logout is undone by such a refresh: its session lives on in a successor exactly when a refresh had read it
  before and not yet committed (`LogoutUndoneIff`). After a logout of all, a user can have a live session
  without a new login exactly when a login past its check, or such a rotation, was in flight
  (`LogoutAllUndoneIff`).
- Two resets with one token both commit exactly when both had read it before the first committed
  (`SecondResetIff`, `ConcurrentResetsBothCommit`).
- A login that has checked the old password when a password change or reset commits still opens a session
  afterwards. That is the only way to a session without a login checked after the commit
  (`SessionWithoutLoginIff`, `OvertakenLoginInserts`).
- A lock in force can be shortened by a later failure exactly when
  `maxLockMs > windowMs + 1 + baseLockMs`. The shipped settings are of that kind, so overlapping login
  requests of one key can shorten its lock. Where the logins of each key run one after the other, however
  those of different keys overlap, none does, since a locked key records no failure (`NeverShortensIff`,
  `ShippedSettingsCanShorten`, `PerKeySerialNeverShortens`). On Redis overlapping requests can shorten a lock
  exactly when `maxLockMs > baseLockMs + 1`, and per-key serial ones again never do (`RedisNeverShortensIff`,
  `RedisPerKeySerialNeverShortens`).
- Locked on Redis implies locked in memory exactly when `maxFailures <= 2` or
  `maxLockMs <= 2 * windowMs + 2 + baseLockMs`; the shipped settings meet it (`DominationIff`).
- Around the edge of a window, up to `2 * limit - 1` requests pass in one window length, and
  `3 * limit - 1` if Redis fails meanwhile; both figures are reached (`AnyIntervalBound`,
  `MemoryBoundReached`, `FailoverBoundReached`). Requests that still wait for Redis when another one
  switches to memory raise it to `4 * limit - 2`, also reached (`LateIntervalBound`, `LateBoundReached`).
- Retry-After is too long for a request that Redis counts at the very last millisecond of its window: no time to
  live is left, and a whole window is announced. Apart from that it is tight (`RedisRetryTightIff`).
- A transition reads and writes separately, so a rejection that read PENDING can overwrite a delivery and leave a
  rejected movement with a deliverer (`LateRejectionBreaksWorkflow`). Status and actors stay matched throughout
  a run exactly when each delivery lands on an approved or delivered row and every other write on an undelivered
  one (`AlwaysSoundIff`). The transition table is followed throughout exactly when each write finds the status
  its request read (`RunFollowsTableIff`).
- A user update can be refused and yet written: exactly when access, branch and e-mail are good, the row would
  change, and the role list is empty, repeats a name or names an unknown role (`RefusedButWrittenIff`).
- Role links are deleted and inserted without a transaction. Each update that succeeds leaves exactly the roles
  it asked for exactly when no successful insert for that user follows another without a delete between; two
  overlapping updates can merge their roles (`AlwaysExactIff`, `OverlappingUpdates`).
- Without dates the dashboard covers 30 days and the list covers everything, so their counts agree exactly when
  no matching movement lies outside those days (`UndatedCounterIff`).

## Assumptions

- One shared clock, non-decreasing from step to step; times are whole milliseconds. `baseLockMs * 2 ** stage`
  is exact: on doubles it only scales the exponent and is then cut by the maximum.
- A Redis key with an expiry answers until its deadline has passed.
- bcrypt: a value matches its own hash, whatever the salt. Nothing is assumed about other values.
- `jwt.verify` accepts only signed tokens (a flag of the step) and yields the session id they were signed with.
  Uuids and signed tokens are new each time; ids are natural numbers in the order the database sorts uuids.
- `update where id` on a missing row aborts its whole transaction. A single query or transaction is atomic.
- Role names and role ids are unique (`prisma/schema.prisma:92`), as are e-mails, and branch codes
  within an organization.
- Amounts are integer cents. An empty string, where the source tests truthiness, is an absent value.

## Model

| member | source | states |
|---|---|---|
| LoginAttempts.LoginAttemptService.constructor | src/auth/login-attempt.service.ts:33 | a new service has no attempts in either store |
| LoginAttempts.LoginAttemptService.AssertNotLocked | src/auth/login-attempt.service.ts:87-121 | answer and store are those of one check: on either store, a locked key is told the time left and a record whose window is over is dropped (see LoginRetry.CheckAnswer) |
| LoginAttempts.LoginAttemptService.RecordFailure | src/auth/login-attempt.service.ts:138-202 | the new store is the one step of the failure record, in memory or by the Lua script |
| LoginAttempts.LoginAttemptService.RecordSuccess | src/auth/login-attempt.service.ts:123-136 | forgets exactly the key, in the store in use |
| LoginAttempts.LoginAttemptService.CleanupExpiredAttempts | src/auth/login-attempt.service.ts:255-270 | the deletion loop removes exactly the records whose window and lock are both over, at most once per interval |
| LoginAttemptLaws.LazyDeletionUnobservable | src/auth/login-attempt.service.ts:106-120 | for every call sequence, answers and retry-after values equal those of a service that deletes only on success |
| LoginAttemptLaws.AgreeRun | src/auth/login-attempt.service.ts:255-270 | the simulation behind it, from any agreeing pair of stores: records agree up to locks already past, a missing one matches one wholly expired |
| LoginAttemptLaws.BackoffClosedForm | src/auth/login-attempt.service.ts:182-201 | in any run without success of the key whose failures of it have gaps inside the window, with checks and other keys' calls anywhere: the count is the number n of failures and, from the threshold on, the lock ends min(base*2^(n-max), cap) after the last, while window or lock is open |
| LoginAttemptLaws.NeverShortensIff | src/auth/login-attempt.service.ts:190-201 | no interleaving shortens a lock in force, exactly when the cap is at most window + 1 + base lock |
| LoginAttemptLaws.ShorteningRun | src/auth/login-attempt.service.ts:190-201 | beyond that cap, a run in which a failure shortens a lock |
| LoginAttemptLaws.ShippedSettingsCanShorten | src/config/configuration.ts:42-45 | the shipped settings are beyond it |
| LoginAttemptLaws.LoginRun | src/auth/auth.service.ts:66-94 | the calls one login makes lead to the lockout state described by one login |
| LoginAttemptLaws.PerKeySerialGuarded | src/auth/auth.service.ts:66-94 | if the logins of each key do not overlap, however those of different keys do, no failure is recorded against a locked key |
| LoginAttemptLaws.PerKeySerialNeverShortens | src/auth/login-attempt.service.ts:190-201 | in such runs no failure shortens a lock in force, whatever the settings |
| LoginAttemptLaws.SerialLoginsPerKey | src/auth/auth.service.ts:66-94 | a plain series of logins is such a run |
| LoginAttemptLaws.GuardedRunsEarn | src/auth/login-attempt.service.ts:185-195 | in any run without such a failure each count above the threshold was reached across locks that fit in the window, and each lock is the one its count earns |
| LoginAttemptLaws.PersistentLogins | src/auth/login-attempt.service.ts:185-195 | every count allowed by that condition is reached by a series of logins |
| LoginAttemptLaws.SerialReachIff | src/auth/login-attempt.service.ts:185-195 | a count is reachable by a per-key serial run exactly when all earlier locks fit in the window; a series of logins reaches the same counts |
| LoginAttemptLaws.PerKeyLockBound | src/auth/login-attempt.service.ts:185-195 | if stage s locks for longer than the window, no per-key serial run takes a key past max + s failures or a lock of stage s |
| LoginAttemptLaws.SerialLockBound | src/auth/login-attempt.service.ts:185-195 | the same for a plain series of logins |
| LoginAttemptLaws.ShippedSerialBound | src/config/configuration.ts:42-45 | with the shipped settings, in per-key serial runs: at most 9 failures and 960000 ms, and 9 is reached |
| LoginRetry.LockRetryTight | src/auth/login-attempt.service.ts:209-219 | on either store, a check refused with r seconds is let through from r seconds on and still refused up to r-1, without further failure or success of the key |
| LoginRetry.CheckAnswer | src/auth/login-attempt.service.ts:95-115 | a check is refused exactly before the lock ends, with the time left in whole seconds rounded up |
| LoginRetry.DisabledDoesNothing | src/auth/login-attempt.service.ts:88-90 | switched off, every call is quiet and records nothing |
| LoginRetry.SuccessForgets | src/auth/login-attempt.service.ts:123-136 | a success forgets everything about its key and nothing about others |
| LoginRetry.SweepSchedule | src/auth/login-attempt.service.ts:255-270 | the sweep runs at most once a minute and takes exactly the records whose window and lock are over; a check drops such a record of its own key |
| LoginStoreComparison.MemoryLocksAtLeastAsLong | src/auth/login-attempt.service.ts:151-167 | whenever the Lua script sets a lock the memory path sets one at least as long |
| LoginStoreComparison.RedisNeverAhead | src/auth/login-attempt.service.ts:151-167 | on any run the next failure counts no higher on Redis than in memory |
| LoginStoreComparison.DominationHolds | src/auth/login-attempt.service.ts:95-104 | within the stated settings, locked on Redis implies locked in memory at least as long, at every instant |
| LoginStoreComparison.DominationFails | src/auth/login-attempt.service.ts:95-104 | outside them, a run on which only Redis is still locked |
| LoginStoreComparison.DominationIff | src/auth/login-attempt.service.ts:151-201 | domination at every instant holds exactly when maxFailures <= 2 or maxLockMs <= 2*windowMs + 2 + baseLockMs |
| LoginStoreComparison.ShippedSettingsDominate | src/config/configuration.ts:42-45 | the shipped settings are among them |
| LoginRedisLaws.RedisNeverShortensIff | src/auth/login-attempt.service.ts:151-167 | on Redis no interleaving shortens a lock in force, exactly when the cap is at most the base lock and a millisecond |
| LoginRedisLaws.RedisShorteningRun | src/auth/login-attempt.service.ts:151-167 | beyond that, a run in which a failure shortens a lock |
| LoginRedisLaws.ShippedSettingsCanShortenOnRedis | src/config/configuration.ts:42-45 | the shipped settings are beyond it |
| LoginRedisLaws.RedisPerKeySerialNeverShortens | src/auth/login-attempt.service.ts:95-104 | per-key serial runs on Redis record no failure against a locked key and shorten no lock, whatever the settings |
| RateLimit.RateLimitGuard.constructor | src/common/guards/rate-limit.guard.ts:34-45 | a process starts with empty counters |
| RateLimit.RateLimitGuard.CanActivate | src/common/guards/rate-limit.guard.ts:127-148 | admits while the count is within the limit, with the number remaining, else refuses with Retry-After; state and answer are those of one step (see RateLimitAnswers) |
| RateLimit.RateLimitGuard.IncrementCounter | src/common/guards/rate-limit.guard.ts:151-199 | counts in Redis and reports the end of its window, or switches to memory for good when Redis fails and counts the same request there |
| RateLimit.RateLimitGuard.CleanupExpiredCounters | src/common/guards/rate-limit.guard.ts:206-221 | the loop removes exactly the counters whose window is over, at most once per interval |
| RateLimitLaws.CleanupUnobservable | src/common/guards/rate-limit.guard.ts:206-221 | every decision equals that of a map that is never cleaned |
| RateLimitLaws.AnyIntervalBound | src/common/guards/rate-limit.guard.ts:127-199 | any interval of one window length admits at most 2*limit-1 requests of a key in memory, 3*limit-1 across the failover |
| RateLimitLaws.AdmittedWithinRoom | src/common/guards/rate-limit.guard.ts:151-199 | the invariant behind it, from any sound state: admissions left in the interval are at most the room the counter leaves |
| RateLimitLaws.MemoryBoundReached | src/common/guards/rate-limit.guard.ts:184-199 | the memory bound is reached, for every limit and every window of two or more |
| RateLimitLaws.FailoverBoundReached | src/common/guards/rate-limit.guard.ts:155-199 | so is the failover bound |
| RateLimitFailover.LateIntervalBound | src/common/guards/rate-limit.guard.ts:155-199 | with requests still waiting for Redis at the switch: at most 4*limit-2 of a key in any interval of one window length |
| RateLimitFailover.LateBoundReached | src/common/guards/rate-limit.guard.ts:155-199 | that bound is reached, for every limit and every window of two or more |
| RateLimitFailover.PromptStep | src/common/guards/rate-limit.guard.ts:151-199 | a request asked after the switch, or before there is one, is counted as by the one-step guard |
| RateLimitLaws.RetryAfterTight | src/common/guards/rate-limit.guard.ts:130-136 | after r seconds the window that refused the request is over, and if r > 1 still full after r-1, whatever comes between |
| RateLimitAnswers.RedisRetryValue | src/common/guards/rate-limit.guard.ts:131-134 | on Redis Retry-After is the time from the question to the end of the window plus the time of the answer, rounded up; a whole window if no time to live is left |
| RateLimitAnswers.RedisWindowDecides | src/common/guards/rate-limit.guard.ts:157-173 | a full Redis window refuses to its end, and the first request counted later opens a new one |
| RateLimitAnswers.RedisRetryEnough | src/common/guards/rate-limit.guard.ts:131-134 | after r seconds the window is at its end, and a request counted past that is admitted |
| RateLimitAnswers.RedisRetryTightIff | src/common/guards/rate-limit.guard.ts:169 | up to r-1 seconds, less the time of the answer, the key is still refused, except exactly for a request counted at the last moment of its window with the time announced not yet over |
| RateLimitAnswers.FirstAnswer | src/common/guards/rate-limit.guard.ts:128 | the first request of a window leaves limit - 1 |
| RateLimitAnswers.RemainingCountsDown | src/common/guards/rate-limit.guard.ts:128-148 | in one window, on either store, after an answer that leaves k the next request leaves k-1, or is refused if k was 0 |
| RateLimitAnswers.SweepSchedule | src/common/guards/rate-limit.guard.ts:206-221 | the sweep runs at most once a minute and takes exactly the counters whose window is over |
| AuthSessionLaws.ReachableGraphSound | src/auth/auth.service.ts:228-256 | in every interleaving: a replaced session is revoked, its successor is of the same user and strictly later, its parent is still there |
| AuthSessionLaws.GraphRun | src/auth/auth.service.ts:228-256 | the same from any sound state |
| AuthSessionLaws.RevokedStaysRevoked | src/auth/auth.service.ts:139-143 | in every interleaving a revocation is never cleared while the row exists |
| AuthSessionLaws.ChainClimbs | src/auth/auth.service.ts:247-254 | a walk along replacedById stays with one user and visits strictly later sessions |
| AuthSessionLaws.ChainsEnd | src/auth/auth.service.ts:247-254 | such walks are acyclic and no longer than the table |
| AuthSessionLaws.Root | src/auth/auth.service.ts:228-256 | each session goes back, rotation by rotation, to one inserted by a login or a registration of its user |
| AuthSessionLaws.WipeIsFinal | src/auth/auth.service.ts:357-408 | after a password change or reset commits, every session of the user found later goes back to a login or register insert made after it |
| AuthSessionLaws.OvertakenLoginInserts | src/auth/auth.service.ts:81-93 | a login past its credential check inserts its session whatever the password has become |
| AuthSessionLaws.SessionWithoutLoginIff | src/auth/auth.service.ts:81-93 | after a password change or reset, a session without a later checked login is possible exactly when a login had passed its check before and not yet inserted |
| AuthSessionLaws.WipeSetsPassword | src/auth/auth.service.ts:357-408 | the new password then logs in, and no other user loses a session or a password |
| AuthSessionLaws.StaleRotationAborts | src/auth/auth.service.ts:243-255 | an in-flight rotation of a deleted session aborts whenever it commits and changes no session |
| AuthSerial.ReuseNeverDetected | src/auth/auth.service.ts:133-149 | in every interleaving an issued token matches the hash of its own session, so the reuse answer is never given |
| AuthSerial.RotatedTokenRefused | src/auth/auth.service.ts:121-131 | once its rotation has committed, a token gets 401 from every later read and nothing changes |
| AuthSerial.SpentStaysSpent | src/auth/auth.service.ts:121-131 | a token whose session is gone or revoked stays so, whatever follows |
| AuthSerial.ResetTokenWorksOnce | src/auth/auth.service.ts:343-366 | once a reset has committed, its token is refused by every later read and nothing changes |
| AuthSerial.ResetInFlightCommits | src/auth/auth.service.ts:357-369 | a reset past its token check commits, used token or not |
| AuthSerial.SecondResetIff | src/auth/auth.service.ts:343-369 | after a reset commits, a second one with its token commits in some later run exactly when it was already in flight |
| AuthSerial.ConcurrentResetsBothCommit | src/auth/auth.service.ts:343-369 | two overlapping resets of one token both commit, and the later password stays |
| AuthSerial.RotationCount | src/auth/auth.service.ts:243-255 | a committed rotation keeps the number of unrevoked sessions exactly when the session it replaces was still unrevoked |
| AuthSerial.RefreshSwapsOne | src/auth/auth.service.ts:98-152 | an accepted refresh taken whole swaps one unrevoked session for another: the old token is spent, the new one good, every count unchanged |
| AuthSerial.LoginAddsOne | src/auth/auth.service.ts:66-94 | an accepted login adds one unrevoked session to its user and none to others |
| AuthSerial.RegisterAddsOne | src/auth/auth.service.ts:26-64 | an accepted registration gives its new user exactly one unrevoked session and others none |
| AuthSerial.LogoutRemovesAtMostOne | src/auth/auth.service.ts:156-191 | a logout removes exactly the session of its token, if unrevoked, and spends the token |
| AuthSerial.ConcurrentRefreshesBothAccepted | src/auth/auth.service.ts:112-151 | two overlapping refreshes of one token are both accepted and leave one session more |
| AuthAnswers.RefreshReadIff | src/auth/auth.service.ts:101-136 | a refresh is accepted exactly with a verified, issued token of a present, unrevoked, unexpired session of an active user; else 401 and nothing changes |
| AuthAnswers.LoginReadIff | src/auth/auth.service.ts:70-89 | a login is accepted exactly with the password of an active user |
| AuthAnswers.RegisterReadIff | src/auth/auth.service.ts:31-58 | a registration is accepted exactly for a new user, who is active with the given password |
| AuthAnswers.LogoutReadIff | src/auth/auth.service.ts:157-185 | a logout acts exactly on a verified, issued token of an unrevoked session, and is answered alike otherwise |
| AuthAnswers.ResetReadIff | src/auth/auth.service.ts:343-353 | a reset token is accepted exactly while unused and unexpired |
| AuthAnswers.ChangeReadIff | src/auth/auth.service.ts:379-396 | a password change is accepted exactly with the current password of an existing user |
| AuthAnswers.SerialRefreshIff | src/auth/auth.service.ts:98-152 | a refresh taken whole gives a new pair exactly in those cases, else 401 and nothing changes |
| AuthAnswers.SerialChangeIff | src/auth/auth.service.ts:374-411 | a password change taken whole succeeds exactly with the current password, writes the new one and drops the sessions; else 403 and nothing changes |
| AuthAnswers.SerialResetIff | src/auth/auth.service.ts:340-372 | a reset taken whole succeeds exactly with an unused, unexpired token, which it uses up; else 403 and nothing changes |
| AuthAnswers.RotationWrites | src/auth/auth.service.ts:228-255 | the two rows a committed rotation writes |
| AuthAnswers.LoginWrites | src/auth/auth.service.ts:228-240 | the row a login or registration inserts |
| AuthAnswers.LogoutWrites | src/auth/auth.service.ts:187-197 | the rows a logout, or a logout of all, revokes and dates |
| AuthAnswers.MissingRowAborts | src/auth/auth.service.ts:243-255 | a commit that misses a row aborts and writes no table |
| AuthAnswers.TokenLifetime | src/auth/auth.service.ts:224-232 | in every interleaving a token is accepted, while its session is live and its owner active, up to refreshMaxAgeMs after its insert, and refused later |
| AuthAnswers.ResetTokenLifetime | src/auth/auth.service.ts:322-332 | in every interleaving a reset token is accepted while unused up to 30 minutes after it was asked for, for the user that asked |
| AuthAnswers.ForgotUnknownUser | src/auth/auth.service.ts:317-320 | asking for an unknown user is answered alike and writes nothing |
| AuthAnswers.PendingIsJustified | src/auth/auth.service.ts:66-396 | in every interleaving, what a request is about to commit was accepted by its own earlier read on the tables of that moment |
| AuthAnswers.PasswordChangesAreEarned | src/auth/auth.service.ts:340-411 | in every interleaving a stored password changes only after the request's own read matched the stored one or found a good reset token, and becomes the hash of the one given |
| AuthAnswers.SessionsAreEarned | src/auth/auth.service.ts:66-152 | in every interleaving a session appears only after its request's own read matched a password, registered the user or accepted a token of the user |
| AuthOverlaps.RevokedRotatesIff | src/auth/auth.service.ts:121-151 | a revoked session is rotated in some later run exactly when a refresh that read it before is still in flight |
| AuthOverlaps.SecondRotationIff | src/auth/auth.service.ts:112-255 | after a rotation of a session commits, a second one is accepted later exactly when another refresh had already read the session |
| AuthOverlaps.LogoutUndoneIff | src/auth/auth.service.ts:187-190 | after a logout commits, its session is rotated later exactly when a refresh had already read it |
| AuthOverlaps.LogoutAllUndoneIff | src/auth/auth.service.ts:193-198 | after a logout of all, a live session without a later checked login is possible exactly when a login past its check, or a rotation of a session still there, was in flight |
| AuthRuns.RunKeeps | src/auth/auth.service.ts:26-411 | requests taken whole, and any single steps between them, keep the rotation graph sound and tokens matched |
| AuthRuns.ServeIsSteps | src/auth/auth.service.ts:26-411 | a request taken whole is its read followed by its write |
| AuthRuns.AcceptedAtMostOnce | src/auth/auth.service.ts:98-152 | over any run of whole requests, with any steps between, a token is accepted at most once, and a spent one never |
| AuthRuns.TokensWorkOnce | src/auth/auth.service.ts:98-152 | in particular from an empty database |
| AuthRuns.SessionsAddUp | src/auth/auth.service.ts:26-411 | over any serial run the unrevoked sessions of a user are as many as its logins, registrations, logouts and password changes add up to |
| AuthServiceModel.AuthService.constructor | src/auth/auth.service.ts:17-22 | starts on empty tables |
| AuthServiceModel.AuthService.Register | src/auth/auth.service.ts:26-64 | the tables change as by the registration steps |
| AuthServiceModel.AuthService.Login | src/auth/auth.service.ts:66-94 | on either store: the lockout is asked first; a failure is recorded and answered 429 or 401 as the lock asked again says; a success clears the record and inserts a session |
| AuthServiceModel.AuthService.Refuse | src/auth/auth.service.ts:83-88 | on either store: records the failure, then 429 with its retry value if the key is locked by now, else 401 |
| AuthServiceModel.VerdictInMemory | src/auth/auth.service.ts:66-94 | in memory a login is let in exactly if its key is not locked and its credentials match, and leaves what its lockout calls leave |
| AuthServiceModel.VerdictTold | src/auth/auth.service.ts:66-94 | on either store: 429 with the time left while locked; good credentials are let in and the key forgotten; else the failure is recorded and answered 429 if it locked the key, else 401 |
| AuthServiceModel.VerdictWithoutLockout | src/auth/login-attempt.service.ts:88-90 | switched off, the lockout lets every good login in and answers every other 401 |
| AuthServiceModel.AuthService.Refresh | src/auth/auth.service.ts:98-152 | the tables change as by the refresh steps |
| AuthServiceModel.AuthService.Logout | src/auth/auth.service.ts:156-191 | the tables change as by the logout steps |
| AuthServiceModel.AuthService.LogoutAll | src/auth/auth.service.ts:193-198 | revokes every session of the user |
| AuthServiceModel.AuthService.ResetPassword | src/auth/auth.service.ts:340-372 | the tables change as by the reset steps |
| AuthServiceModel.AuthService.ChangePassword | src/auth/auth.service.ts:374-411 | the tables change as by the password-change steps |
| AuthServiceModel.AuthService.CreateSession | src/auth/auth.service.ts:202-259 | inserts one session, and for a rotation revokes and links the old one in the same transaction or does neither |
| BranchAccess.AccessibleIff | src/branches/branch-access.service.ts:123-141 | a branch is accessible exactly if it is the organization's and the caller's own when the caller is tied to one |
| BranchAccess.CreateResolvesIff | src/branches/branch-access.service.ts:20-67 | which branch a new movement goes to, for each role |
| BranchAccess.FilterResolvesIff | src/branches/branch-access.service.ts:69-121 | which branch a filter names, for each role |
| BranchAccess.UnrestrictedIff | src/branches/branch-access.service.ts:112-114 | a filter is unrestricted only for an untied caller that asked for no branch |
| BranchAccess.AccessibleBranchesAre | src/branches/branch-access.service.ts:143-170 | the listing resolver gives exactly the accessible branches, active ones only for an untied caller |
| BranchAccess.ResolversAgree | src/branches/branch-access.service.ts:20-170 | any branch a resolver hands out is accepted by the access check for the same caller |
| BranchAccess.CreateRefusals | src/branches/branch-access.service.ts:20-67 | the error of every refused create, and the branch otherwise |
| BranchAccess.FilterRefusals | src/branches/branch-access.service.ts:69-121 | the error of every refused filter |
| BranchAccess.AccessRefusals | src/branches/branch-access.service.ts:123-199 | the error of every refused access |
| CashMovements.UpdateStatus | src/cash-movements/cash-movements.repository.ts:104-113 | the row of the id gets status and patched actors, every other row stays |
| CashMovements.FindRowIs | src/cash-movements/cash-movements.repository.ts:53-68 | a lookup by id finds that row |
| CashMovements.CashMovementsService.constructor | src/cash-movements/cash-movements.service.ts:27-32 | starts on an empty table |
| CashMovements.CashMovementsService.CreateMovement | src/cash-movements/cash-movements.service.ts:34-65 | table and answer are those of the create function |
| CashMovements.CashMovementsService.Transit | src/cash-movements/cash-movements.service.ts:132-184 | table and answer are those of the transition function |
| Workflow.CreateOutcome | src/cash-movements/cash-movements.service.ts:38-62 | succeeds exactly when a branch resolves and the amount is positive, with the error of the first that fails; appends one PENDING unsigned movement of the caller, every column told |
| Workflow.TransitionOutcome | src/cash-movements/cash-movements.service.ts:132-184 | succeeds exactly for an own, accessible movement on a legal edge, with the error of the first test that fails; records the actor in the right column and nothing else |
| Workflow.TransitionOfNothing | src/cash-movements/cash-movements.service.ts:143-148 | an absent movement is answered like a foreign one |
| Workflow.OpKeepsWorkflow | src/cash-movements/cash-movements.service.ts:132-184 | one operation keeps status and actors matched, every origin column, and moves at most its row along one edge |
| Workflow.RunKeepsWorkflow | src/cash-movements/cash-movements.service.ts:34-184 | so does any serial run, with rank never rising |
| Workflow.MovesBound | src/cash-movements/cash-movement-transition.validator.ts:3-20 | a movement makes at most two moves in any serial run |
| Workflow.NeverBackToPending | src/cash-movements/cash-movements.service.ts:138-181 | in every interleaving nothing returns to PENDING and organization, branch, amount, type, currency, creator never change |
| Workflow.WriteIsEdgeIff | src/cash-movements/cash-movements.service.ts:155-181 | an interleaved write is a legal edge exactly when the row still has the status read |
| Workflow.RunFollowsTableIff | src/cash-movements/cash-movements.service.ts:138-181 | in every interleaving all writes are legal edges exactly when each finds the status its request read |
| Workflow.WriteKeepsActorsIff | src/cash-movements/cash-movements.service.ts:166-181 | an interleaved write keeps status and actors matched exactly when a delivery lands on an approved or delivered row, any other write on an undelivered one |
| Workflow.AlwaysSoundIff | src/cash-movements/cash-movements.service.ts:138-181 | in every interleaving status and actors match at every moment exactly when each write lands so |
| Workflow.UndisturbedRunKeepsWorkflow | src/cash-movements/cash-movements.service.ts:138-181 | interleavings whose writes find the status they read keep status, actors and origin, with rank falling |
| Workflow.LateRejectionBreaksWorkflow | src/cash-movements/cash-movements.service.ts:171-181 | a run that leaves a rejected movement with a deliverer |
| Listing.SortedKeeps | src/cash-movements/cash-movements.repository.ts:77-86 | the order (createdAt desc, id desc) is strict and keeps exactly the rows |
| Listing.OrderIsUnique | src/cash-movements/cash-movements.repository.ts:80 | no other arrangement of the rows is so ordered |
| Listing.MatchingIsSubset | src/cash-movements/cash-movements.repository.ts:115-130 | the filter keeps exactly the matching rows |
| Listing.PagesPartition | src/cash-movements/cash-movements.repository.ts:74-88 | pages 1..totalPages concatenate to the sorted matching rows; all but the last are full, the last is non-empty, later ones empty |
| Listing.ListingIsExact | src/cash-movements/cash-movements.service.ts:67-103 | the answers to one query over all its pages list every matching row once, total in all, in the only strict order (single pages and defaults: ReportAnswers) |
| ReportAnswers.ListAccepted | src/cash-movements/cash-movements.service.ts:71-75 | a listing is accepted exactly with good dates and scope; bad dates are told first |
| ReportAnswers.ListMeta | src/cash-movements/cash-movements.service.ts:76-102 | page and size default to 1 and 20 and are echoed; total counts the rows asked for and the pages are just enough |
| ReportAnswers.ListData | src/cash-movements/cash-movements.repository.ts:74-88 | a page holds exactly the rows asked for with at least (page-1)*size and fewer than page*size ahead of them, in order |
| ReportAnswers.ListDefaults | src/cash-movements/cash-movements.service.ts:20-21 | a query without page or size has the whole answer of page 1 or size 20 |
| ReportAnswers.StatsRange | src/cashflow/cashflow.service.ts:113-146 | the dashboard is accepted exactly with good dates and scope, and covers the dates given or the last 30 days |
| ReportAnswers.StatsFigures | src/cashflow/cashflow.service.ts:28-109 | each figure is the sum or count over the rows of the caller's scope between the dates named |
| Stats.CountersMatchList | src/cashflow/cashflow.service.ts:65-88 | each status counter equals the list total for that status and the four sum to the unfiltered total |
| Stats.UndatedCounterIff | src/cashflow/cashflow.service.ts:138-143 | without dates they agree exactly when no such movement lies outside the default range |
| Stats.NetIsSignedSum | src/cashflow/cashflow.service.ts:91-93 | net is the signed sum of the movements in scope |
| Stats.OrganizationIsSumOfBranches | src/cashflow/cashflow.service.ts:28-89 | every organization-wide card is the sum of the per-branch cards |
| Stats.TransitionConserves | src/cashflow/cashflow.service.ts:46-93 | a transition moves one unit between two counters and leaves totalIn, totalOut and net |
| Noninterference.ListNoninterference | src/cash-movements/cash-movements.repository.ts:70-130 | list answers depend only on the caller's organization and branch scope, up to which 404 is given |
| Noninterference.StatsNoninterference | src/cashflow/cashflow.service.ts:22-37 | so do the dashboard figures |
| Noninterference.TransitionNoninterference | src/cash-movements/cash-movements.service.ts:138-181 | a transition's outcome and effect depend only on the caller's organization and touch no other; foreign and absent ids answer alike |
| BranchesModel.BranchesService.constructor | src/branches/branches.service.ts:18-20 | starts on an empty table |
| BranchesModel.BranchesService.CreateBranch | src/branches/branches.service.ts:45-62 | table and answer are those of the create function |
| BranchesModel.BranchesService.UpdateBranch | src/branches/branches.service.ts:64-90 | table and answer are those of the update function |
| BranchesModel.OpStaysInside | src/branches/branches.repository.ts:74-102 | an operation of one organization touches no branch of another |
| BranchesModel.RunKeepsCodes | src/branches/branches.repository.ts:74-102 | over any run codes stay unique per organization and every branch keeps organization and code |
| BranchesModel.UpdateOutcome | src/branches/branches.service.ts:64-90 | succeeds exactly for an own branch, writes the fields given and only those |
| BranchesModel.CreateOutcome | src/branches/branches.service.ts:45-62 | succeeds exactly when the code is free in the organization; writes name and code, active unless said otherwise |
| BranchesModel.FindOneOutcome | src/branches/branches.repository.ts:43-58 | found exactly inside its organization |
| Users.LoadRolesIff | src/users/users/users.service.ts:271-292 | comparing the two lengths accepts exactly the lists without repetition whose names all exist |
| Users.AccessIff | src/users/users/users.service.ts:241-269 | who may touch a user: an administrator or the user itself, inside the organization |
| Users.AccessRefusals | src/users/users/users.service.ts:241-269 | the error of every refused access |
| Users.CreateRefusals | src/users/users/users.service.ts:61-119 | the error of every refused create, in the order of the tests |
| Users.UpdateRefusals | src/users/users/users.service.ts:121-189 | the error of every refused update, in the order of the tests |
| Users.CreateAssignsExactly | src/users/users/users.service.ts:61-119 | when a create succeeds, the row it adds, and exactly the requested roles |
| Users.UpdateOutcome | src/users/users/users.service.ts:121-173 | the columns given are written, the others and all other users stay |
| Users.UpdateAssignsExactly | src/users/users/users.service.ts:175-195 | after a successful update the role set is exactly the requested non-empty set, other users' roles unchanged |
| Users.RefusedUpdate | src/users/users/users.service.ts:156-183 | what each kind of refusal leaves: links always alone, the row too unless the role list is refused |
| Users.RefusedButWrittenIff | src/users/users/users.service.ts:126-183 | the inputs for which a refused update has written the row |
| Users.RefusedButDeactivated | src/users/users/users.service.ts:156-183 | one such request: a repeated role name, and the user is deactivated |
| RoleUpdates.InsertIsExactIff | src/users/users/users.service.ts:189-194 | an insert of links leaves exactly the requested roles exactly when it finds none |
| RoleUpdates.LoadIff | src/users/users/users.service.ts:175-183 | a role update gets as far as deleting exactly with a good role list; a refusal changes nothing |
| RoleUpdates.AlwaysExactIff | src/users/users/users.service.ts:183-194 | in every interleaving each update that succeeds is exact exactly when no successful insert for the user follows another without a delete between |
| RoleUpdates.OverlappingUpdates | src/users/users/users.service.ts:185-194 | two updates that both deleted first merge their roles if these are disjoint; otherwise the later one fails |
| RoleUpdates.SerialUpdate | src/users/users/users.service.ts:183-194 | uninterrupted, the three steps do to the links what the whole update does |
| Users.RemoveOutcome | src/users/users/users.repository.ts:114-131 | a removal only deactivates the row |
| Users.UsersService.constructor | src/users/users/users.service.ts:25-28 | starts on empty tables and the given roles |
| Users.UsersService.CreateUser | src/users/users/users.service.ts:61-119 | tables and answer are those of the create function |
| Users.UsersService.UpdateUser | src/users/users/users.service.ts:121-210 | tables and answer are those of the update function |
| Users.UsersService.RemoveUser | src/users/users/users.service.ts:212-228 | tables and answer are those of the remove function |
| Tenancy.TenantsStayClosed | src/users/users/users.service.ts:82-163 | in every interleaving each user's branch, each movement's branch and each actor are of the row's own organization |
| Tenancy.RunCloses | src/cash-movements/cash-movements.service.ts:38-181 | the invariant behind it, requests in flight included |
| Tenancy.RegisterStep | src/auth/auth.service.ts:26-51 | a registration extends a closed database |
| Tenancy.InsertUserStep | src/users/users/users.repository.ts:88-96 | so does the insert of a user whose branch was checked earlier |
| Tenancy.PatchUserStep | src/users/users/users.repository.ts:98-112 | so does the scoped update of a user |
| Tenancy.InsertMovementStep | src/cash-movements/cash-movements.repository.ts:91-102 | so does the insert of a movement whose branch was resolved earlier |
| Tenancy.MoveExtends | src/cash-movements/cash-movements.repository.ts:104-113 | so does the unscoped status write, since it names a movement checked earlier |
| Tenancy.PatchBranchStep | src/branches/branches.repository.ts:87-102 | so does the unscoped branch update |
| Tenancy.AuthenticateIff | src/auth/strategies/jwt.strategy.ts:20-69 | a caller is exactly an active user, with the organization and branch of its row |
| Tenancy.CreateMovementSteps | src/cash-movements/cash-movements.service.ts:34-65 | uninterrupted, the steps do what the create request does |
| Tenancy.MoveSteps | src/cash-movements/cash-movements.service.ts:132-184 | so do the steps of a transition |
| Tenancy.BranchSteps | src/branches/branches.service.ts:45-90 | so do the steps on a branch |
| Tenancy.PatchUserSteps | src/users/users/users.service.ts:121-163 | so do the steps of a user update, e-mail and roles aside |
| Tenancy.CreateUserSteps | src/users/users/users.service.ts:61-106 | and those of a user create that succeeds |
| Tenancy.RegisterOutcome | src/auth/auth.service.ts:26-61 | a registration adds one active user without a branch, if its e-mail is free |
| Metrics.MetricsService.constructor | src/common/metrics/metrics.service.ts:16-19 | starts with empty tables |
| Metrics.MetricsService.RecordHttpRequest | src/common/metrics/metrics.service.ts:21-39 | both maps change as by one record |
| Metrics.MetricsService.ResetForTests | src/common/metrics/metrics.service.ts:75-78 | empties both maps |
| MetricsLaws.TwoPassesEscapeEach | src/common/metrics/metrics.service.ts:85-87 | the two replacement passes equal one escape per character |
| MetricsLaws.ReadBack | src/common/metrics/metrics.service.ts:85-87 | an escaped value can be read back from between its quotes, so it holds no bare quote |
| MetricsLaws.LabelRoundTrip | src/common/metrics/metrics.service.ts:22-26 | a label string reads back to the method, path and status it was built from |
| MetricsLaws.LabelInjective | src/common/metrics/metrics.service.ts:22-26 | so different series never share a key |
| MetricsLaws.TablesCountBySeries | src/common/metrics/metrics.service.ts:28-38 | for each series the maps hold the number and total duration of its requests |
| MetricsLaws.KeysAreLabels | src/common/metrics/metrics.service.ts:28-38 | both maps have exactly the labels of the requests made as keys |
| MetricsLaws.TotalsAddUp | src/common/metrics/metrics.service.ts:28-29 | the counts sum to the calls made since the reset |
| MetricsLaws.RequestCounts | src/common/metrics/metrics.service.ts:21-39 | one request adds one and its positive duration under its own label, spelled out, and nothing anywhere else |
| MetricsLaws.UpperHolds | src/common/metrics/metrics.service.ts:22 | upper case, letter by letter |
| MetricsLaws.PathHolds | src/common/metrics/metrics.service.ts:80-83 | the path is cut at the first '?', an empty one is the root |
| Seed.GroupUsers | prisma/seed.ts:548-569 | the loop collects the ids of administrators, managers and operators, by branch, in order |
| Seed.PushBranchRows | prisma/seed.ts:600-659 | the inner loop pushes the rows of one branch |
| Seed.DemoMovements | prisma/seed.ts:541-660 | refuses without users, and otherwise produces the rows of all branches |
| Seed.SeedStartsSound | prisma/seed.ts:588-660 | for every configured size each row carries the actors its status calls for, from demo users, in a demo branch |
| Seed.SeedCount | prisma/seed.ts:590-660 | each branch gets as many movements as configured |
| Seed.SeedRowShape | prisma/seed.ts:605-659 | amount, type, status, dates and actors of the row of a position |
| Seed.PoolsHold | prisma/seed.ts:591-598 | who creates and who signs in a branch |
| Seed.TurnsThroughPool | prisma/seed.ts:137-142 | positions take turns through their pool |

## Left out

- RateLimitLaws.AnyIntervalBound: one guard stands for the process; several guards sharing the static map are not captured. Each request is one step here; RateLimitFailover splits the request from its count in Redis.
- RateLimit.RateLimitGuard.IncrementCounter: the memory path returns the counter object itself, shared with later requests; here it returns its value.
- AuthSessions: users are found by id; looking them up by e-mail, access tokens, client address and user agent of a session, and `getSession` are not modelled.
- AuthServiceModel.AuthService.Register: the default organization and operator role upserts, and the e-mail index behind "user already exists", are stood for by a new user id; Tenancy and Users model e-mails.
- LoginAttempts: a key is already built; trimming and lower-casing of e-mail and address are not modelled, nor are connecting to Redis and Redis errors in the lockout.
- RateLimit.RateLimitGuard.CanActivate: routes without limit options, building the key from address, method and route, and the X-RateLimit headers are not modelled.
- BranchAccess.AccessibleBranchesAre: the accessible branches are a set, without the order by name.
- BranchesModel: names and codes come trimmed and upper-cased; the list of branches is not modelled.
- Listing: date and decimal parsing are library code; a date argument is absent, not a date, or a moment, and an amount is absent or a number of cents.
- Users.UsersService.CreateUser: the password hash and the response mapping are not modelled; e-mail uniqueness is checked on the table in one step.
- Users.UsersService.UpdateUser: the response, read back after the writes, is not modelled, nor is the runtime role derived from role names.
- Metrics.MetricsService.RecordHttpRequest: `toUpperCase` is modelled for ASCII letters and durations are exact reals; rendering for Prometheus is not modelled.
- Seed: the upserts of organizations, branches and users, passwords and the deletion of earlier demo rows are not modelled; a row's description is its branch code.
- Tenancy: role links are a parameter of each request, and a request may repeat its write.
- Controllers, DTO validation, CSRF and permission guards, audit and logging interceptors, the exception filter, health and bootstrap hold no deep state and are not modelled.
