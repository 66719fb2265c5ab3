# A verified model of the PulseOps protocols and algorithms

PulseOps is a multi-tenant commerce backend. This project models the parts of it in which something can go wrong between
two lines of code, and proves what they promise:

* the `Idempotency-Key` protocol: any number of requests interleave their database statements, handlers fail, processes
  crash, saves are lost, a nightly job purges old rows (`Idempotency*.dfy`);
* login sessions with rotating refresh tokens, replay detection, sign-out in all its forms, password resets and token
  cleanup (`Session*.dfy`, `AuthService.dfy`);
* the cache beside the database: staleness under interleaved readers, writers, expiry and failing Redis calls, exactness
  with one request at a time, what a hit shows compared with a miss, and isolation of tenants by key strings and glob
  patterns (`Cache*.dfy`, `TornReads.dfy`, `Analytics*.dfy`,
  `PermissionCache.dfy`);
* the category forest, the retry loop for provider calls, upload file names and storage keys, the grouped revenue report,
  conversion to minor currency units in floating point, and redaction of audit values.

A protocol is a state, a datatype of steps, a total function `Apply` and runs `Exec(s, steps)`; each safety theorem
quantifies over every sequence of steps and rests on an inductive invariant. Objects that the program updates in place
(the middleware's table, the auth service, the Redis cache, tree nodes) are classes whose methods follow the program
statement by statement and are proved equal to one step of the machine, or to a specification function.

History variables (`claimer`, `purges`, `chains`, `minted`, `since`, `past`, `loads`) exist in the model only.

## Findings

* **Purge against a slow handler.** A row is keyed by scope and key, not by its owner. When the nightly purge removes the
  row of a handler that is still running, a later request can claim the slot, and the slow handler's failure then deletes
  that request's row: two executions claimed one tick apart can both succeed (`IdempotencyPurge.LateHandlerBreaksIt`). A
  purge finds no handler older than the retention if and only if every purge-free continuation runs one handler at a time
  per key and replays only the call's own 2xx (`IdempotencyPurge.PurgeHonoursIffTimely`).
* **More than one answer.** The replaced `res.json` saves at every call. An error handler that answers after a success
  deletes its row, and the next request with the key runs again (`IdempotencyAnswers.ErrorAfterSuccess`). A further answer
  is harmless to at-most-once if and only if it does not delete the row of a request that succeeded, may still succeed, or
  is still saving (`IdempotencyAnswers.AnswerIsHarmlessIff`).
* **Objects taken for a Decimal.** The audit sanitiser asks for `value.constructor.name`, and an object can carry both names
  itself, as in `{constructor: {name: 'Decimal'}}`. Such an object is logged as "[object Object]" whatever else it holds
  (`AuditSanitize.DisguisedIsLost`); the metadata of a customer, which `src/modules/customers/customers.validation.js:69`
  takes as it comes, can hold one. A shallow value without secrets, dates and decimals is kept if and only if no object in
  it passes that test (`AuditSanitize.PlainIsUnchangedIff`).
* **Reset links outlive the password.** Changing or resetting a password leaves the user's other reset links working. A
  working link works later if and only if it was not used and its hour is not over (`SessionTheorems.ResetStillWorksIff`,
  `SessionTheorems.OlderLinksOutliveThePassword`).
* **Deleting a user deletes no cache key.** The user's cached permissions stay; entries are exact if and only if none of the
  user's granted anything (`PermissionCache.Permissions.DeleteUser`).
* **The last admin.** Removing the admin role never leaves a tenant without an admin
  (`PermissionCache.Permissions.RemoveRole`); the guard counts holders before it asks whether this user is one, so with one
  admin it answers 409 for everybody. Deleting a user has no such guard: the role stays held if and only if somebody else
  holds it (`PermissionCache.Permissions.DeleteUser`).
* **A permission list of no database state.** `getUserPermissions` reads roles and permissions in two queries, so the list
  cached can be one that the database never held: a user loses a role, the role gets new permissions, and the list shows
  them (`TornReads.TornRead`). A window of writes between the two reads is
  harmless for every content of the database if and only if no change of the user's roles comes with, or before, a change
  of those roles' permissions (`TornReads.WindowIsHarmlessIff`). In every run a harmless window gives the answer of one
  state within the staleness bound (`TornReads.OneVersionUnlessRolesThenGrants`), and for every other window some run with
  these writes tears (`TornReads.HarmfulWindowsTear`). A report sends several queries, and there the
  condition is that at most one query's answer changes (`TornReads.ReportWindowIsHarmlessIff`).
* **Invalidation of a tenant named like an endpoint.** `invalidateCache` cuts its patterns out of a key with
  `split(':overview:')`. For a tenant whose id is `overview` the cut falls too early and the pattern covers every key below
  the tenant; the pattern is exact if and only if the names differ (`AnalyticsKeys.EndpointPatternIsExactIff`).
  `sanitizeId` lets such an id through, but tenant ids are generated UUIDs (`prisma/schema.prisma:156`), so only an id set
  by hand can meet it.
* **Currencies without minor digits.** Rounding to whole units is not additive (`MinorUnits.WholeUnitsDoNotAdd`); with two
  or three digits it is (`MinorUnits.MinorUnitsAdd`), and without digits exactly when what rounding leaves over in
  the parts of a bill makes less than half a unit together (`MinorUnits.WholeUnitsAddIff`).
* **What the cache strips.** A hit can show less than the miss before it: exactly the fields whose names contain a secret
  word (`CacheValues.HitShowsTheMissIff`), for instance a count of tokens (`CacheValues.HitLosesACount`). Class instances
  other than Date and Decimal are stored whole, so a secret inside one is stored too (`CacheValues.StoredIsCleanIff`,
  `CacheValues.InstanceKeepsItsToken`).
* **`__proto__` fields.** The copy loops of the audit sanitiser and of the cache assign `out[k]`, so a field of that name is
  lost rather than kept or redacted; the theorems are stated for what the code does.

## Model

| member | source | states |
|---|---|---|
| `IdempotencyMiddleware.Middleware.Receive` | src/common/middleware/idempotency.js:20-31 | the checks before the first statement admit, refuse or pass a request as the machine says, and keep the invariant |
| `IdempotencyMiddleware.Middleware.InsertRow` | src/common/middleware/idempotency.js:35 | insert-if-absent: a row is written, and counted, only where none was |
| `IdempotencyMiddleware.Middleware.InsertKey` | src/common/middleware/idempotency.js:33-36 | the claim is the machine's step, also when the statement fails before or after taking effect |
| `IdempotencyMiddleware.Middleware.FindExisting` | src/common/middleware/idempotency.js:36-50 | what a request that inserted nothing is told, in the code's order of checks |
| `IdempotencyMiddleware.Middleware.Json` | src/common/middleware/idempotency.js:53-58 | the handler's status and body are fixed when it answers |
| `IdempotencyMiddleware.Middleware.SaveOutcome` | src/common/middleware/idempotency.js:54-61 | a 2xx is stored, anything else frees the key, and a lost save changes nothing |
| `IdempotencyMiddleware.Middleware.SendReply` | src/common/middleware/idempotency.js:59-63 | the handler's own reply goes out once the save has settled |
| `IdempotencyMiddleware.Middleware.DeleteOldKeys` | src/jobs/processors/cleanup.processor.js:63-69 | the purge removes exactly the rows older than 24 hours, of one tenant or of all, and keeps the invariant when timely |
| `IdempotencySafety.PhaseKeeps` | src/common/middleware/idempotency.js:33-65 | a request moving on without touching the table keeps the invariant that ties rows to their holders |
| `IdempotencySafety.ClaimKeeps` | src/common/middleware/idempotency.js:35 | so does inserting into an empty slot: earlier executions there failed or have expired |
| `IdempotencySafety.SaveKeeps` | src/common/middleware/idempotency.js:54-63 | so does storing a 2xx or deleting the row of a failure: it is the saver's own row |
| `IdempotencySafety.PurgeKeeps` | src/jobs/processors/cleanup.processor.js:63-69 | so does a purge that finds no handler older than the retention |
| `IdempotencySafety.StepKeeps` | src/common/middleware/idempotency.js:20-66 | so does every step of any request, with any fault |
| `IdempotencySafety.RunKeeps` | src/common/middleware/idempotency.js:20-66 | the invariant holds after every interleaving whose purges were timely |
| `IdempotencyTheorems.MutualExclusion` | src/common/middleware/idempotency.js:34-51 | at no time are two handlers, or their saves, at work for one scope and key |
| `IdempotencyTheorems.AtMostOnce` | src/common/middleware/idempotency.js:6-14 | without a purge a key has at most one execution that did not report failure, whatever interleaves, fails or crashes |
| `IdempotencyTheorems.AtMostOncePerRetention` | src/jobs/processors/cleanup.processor.js:63-69 | with timely purges, two such executions were claimed more than 24 hours apart |
| `IdempotencyTheorems.ReplayIsFaithful` | src/common/middleware/idempotency.js:37-46 | a replay equals, in status and body, the answer of a 2xx execution of the same scope, key, route and body |
| `IdempotencyTheorems.ReplayOfTheOnlySuccess` | src/common/middleware/idempotency.js:9-11 | without a purge it is the answer of the only 2xx execution the key ever had |
| `IdempotencyTheorems.StoredPersists` | src/common/middleware/idempotency.js:52-63 | a stored reply never changes and never disappears until a purge |
| `IdempotencyTheorems.StoredSettlesTheSlot` | src/common/middleware/idempotency.js:36-47 | once a reply is stored no further handler runs: a repeat is answered with it, another route or body is refused |
| `IdempotencyTheorems.BystandersTouchNothing` | src/common/middleware/idempotency.js:36-47 | a request that was refused with 409 or 422, or replayed, never ran its handler and never changed the table |
| `IdempotencyTheorems.FailureFreesTheKey` | src/common/middleware/idempotency.js:11-12 | after a failure was saved, the next request with the key runs |
| `IdempotencyPurge.LateHandlerBreaksAPromise` | src/common/middleware/idempotency.js:33-65 | from every state in which a handler lost its row, running, failing or succeeding, some run starts two handlers on one key or replays a reply the call never got |
| `IdempotencyPurge.TimelyPurgeHonours` | src/jobs/processors/cleanup.processor.js:63-69 | after a timely purge every purge-free continuation runs one handler at a time and replays only the call's own 2xx |
| `IdempotencyPurge.PurgeHonoursIffTimely` | src/jobs/processors/cleanup.processor.js:63-69 | a purge finds no handler older than the retention if and only if every purge-free continuation keeps both promises |
| `IdempotencyPurge.PurgeIsSafeIffTimely` | src/jobs/processors/cleanup.processor.js:63-69 | the same condition is exactly what keeps the invariant that the other theorems rest on |
| `IdempotencyPurge.LateHandlerBreaksIt` | src/common/middleware/idempotency.js:54-63 | a run in which a handler outlives the retention and two executions claimed one tick apart both succeed |
| `IdempotencyAnswers.AnswerIsHarmlessIff` | src/common/middleware/idempotency.js:53-64 | one more call of `res.json` leaves at most one execution per key in every purge-free continuation if and only if it takes no row of a request that succeeded, may still succeed or is saving |
| `IdempotencyAnswers.AtMostOnceWithFurtherAnswers` | src/common/middleware/idempotency.js:53-64 | at most once in every purge-free run without such an answer |
| `IdempotencyAnswers.AnsweredOnceIsHarmless` | src/common/middleware/idempotency.js:53-64 | in particular when every handler answers once |
| `IdempotencyAnswers.ErrorAfterSuccess` | src/common/middleware/idempotency.js:56-58 | from every state, an error answered after a success lets the next request with the key succeed too |
| `IdempotencyReplies.AdmittedIff` | src/common/middleware/idempotency.js:15-27 | a request takes part exactly with a scope and 8 to 255 letters, digits or `._:-`; any other key but an empty one is refused |
| `IdempotencyReplies.ClaimTold` | src/common/middleware/idempotency.js:33-36 | the first request of a slot runs and its row describes it, a later one goes on to the lookup, and a failing statement leaves the same row or none |
| `IdempotencyReplies.ToldWhileInProgress` | src/common/middleware/idempotency.js:36-44 | while a handler or its save is at work, a repeat of its call is told exactly that, and another route or body that the key was used for something else |
| `IdempotencyReplies.ToldAfterACrash` | src/common/middleware/idempotency.js:36-44 | so they are when the row was left by a crash or by an insert that was reported lost |
| `IdempotencyReplies.ToldToRetry` | src/common/middleware/idempotency.js:37-38 | once the row is gone the answer is to retry |
| `IdempotencyReplies.ToldTheStoredReply` | src/common/middleware/idempotency.js:39-46 | with a 2xx stored, the same call gets it and any other is refused |
| `IdempotencyReplies.SavedByStatus` | src/common/middleware/idempotency.js:54-61 | status 200 to 299 stores the reply, any other removes the row, a lost save leaves it in progress, and other slots stay as they are |
| `IdempotencyReplies.PurgeDeletesExactly` | src/jobs/processors/cleanup.processor.js:63-69 | exactly the rows more than 24 hours old, of one tenant or of all, are removed |
| `SessionChains.RotateKeeps` | src/modules/auth/auth.service.js:371-413 | rotation keeps the invariant: one chain per session, only its newest token live, claims that agree with the rows |
| `SessionChains.StepKeeps` | src/modules/auth/auth.service.js:290-502 | every request, cleanup and tick keeps it |
| `SessionChains.RunKeeps` | src/modules/auth/auth.service.js:290-502 | it holds in every reachable state |
| `SessionChains.ReachableHolds` | src/modules/auth/auth.service.js:290-502 | in particular from a database that holds only refresh tokens from before sessions existed |
| `SessionTheorems.OneLiveToken` | src/modules/auth/auth.service.js:371-405 | the tokens of a session share user and tenant, at most one is unrevoked, and none is newer than that one |
| `SessionTheorems.RefreshExtendsTheChain` | src/modules/auth/auth.service.js:371-405 | only a session's newest token rotates; it is revoked and one new token joins the end of the chain |
| `SessionTheorems.RefreshedSessionIsActive` | src/modules/auth/auth.service.js:371-413 | afterwards the new token is the one live token, and the session is active |
| `SessionTheorems.AcceptedClaimsMatchTheRow` | src/modules/auth/auth.middleware.js:93-102 | an accepted access token names the user, tenant and session of the one live row behind it |
| `SessionTheorems.EndedStaysEnded` | src/modules/auth/auth.repository.js:140-145 | a session without a refreshable token is never refreshable or active again, in any run |
| `SessionTheorems.ChangePasswordSignsOutOthers` | src/modules/auth/auth.service.js:438-451 | after a password change no access token of the user's other sessions is ever accepted again |
| `SessionTheorems.ChangePasswordKeepsTheCaller` | src/modules/auth/auth.repository.js:170-180 | the caller's session and other users' rows stay as they were |
| `SessionTheorems.LogoutAllSignsOutEverywhere` | src/modules/auth/auth.service.js:499-502 | after signing out everywhere no earlier access token of the user is ever accepted again |
| `SessionTheorems.ResetPasswordSignsOutEverywhere` | src/modules/auth/auth.service.js:587-591 | nor after a password reset |
| `SessionTheorems.RevokeSessionEndsIt` | src/modules/auth/auth.service.js:491-497 | revoking a session ends it for good; one of another user or tenant is answered 404 and untouched |
| `SessionTheorems.ReplayEndsExactlyItsSession` | src/modules/auth/auth.service.js:303-322 | a replayed token ends its session for good and changes the activity of no other |
| `SessionTheorems.LegacyReplayEndsTheUser` | src/modules/auth/auth.service.js:310-322 | a replayed token without a session ends exactly the sessions of its user |
| `SessionTheorems.LogoutEndsTheLiveSession` | src/modules/auth/auth.service.js:416-425 | logging out with the live token ends its session; with a rotated one it changes no activity |
| `SessionTheorems.RevokedRowStays` | src/modules/auth/auth.repository.js:203-210 | a revoked row stays revoked until it has expired, so replays are noticed |
| `SessionTheorems.SecondUseEndsTheSession` | src/modules/auth/auth.service.js:303-322 | a token presented twice within its lifetime, with anything in between, is refused and its session ends for good |
| `SessionTheorems.ResetWorksOnce` | src/modules/auth/auth.service.js:560-594 | a reset link that was accepted is never accepted again |
| `SessionTheorems.ResetExpires` | src/modules/auth/auth.service.js:560-594 | after its expiry no run accepts it |
| `SessionTheorems.ResetLinkLastsOneHour` | src/modules/auth/auth.service.js:541-550 | a reset link is refused more than an hour after it was made |
| `SessionTheorems.ResetStillWorksIff` | src/modules/auth/auth.service.js:560-594 | a working link works after a run if and only if it was not used in it and its hour is not over |
| `SessionTheorems.OlderLinksOutliveThePassword` | src/modules/auth/auth.service.js:438-451 | a password change, or a reset through another link, leaves a link working |
| `SessionAnswers.OthersGetNothing` | src/modules/auth/auth.service.js:290-502 | no step but a login or refresh of an accepted account adds a refresh token or an access token |
| `SessionAnswers.RefusedAccount` | src/modules/auth/auth.service.js:357-367 | a working token of a refused account changes nothing and is answered with the refusal |
| `SessionAnswers.TokensComeFromAccounts` | src/modules/auth/auth.service.js:290-502 | in a run without a login or refresh of an accepted account no access or refresh token appears |
| `SessionAnswers.ClaimsComeFromAnswers` | src/modules/auth/auth.service.js:371-413 | every access token that a run adds was the answer to such a login or refresh in it |
| `SessionAnswers.LoginOpensASession` | src/modules/auth/auth.service.js:698-724 | a login adds one row for seven days and one access token that is accepted at once, and touches nothing else |
| `SessionAnswers.RefreshIsAnswered` | src/modules/auth/auth.service.js:290-414 | unknown, expired, revoked and refused tokens are told so in this order; the others get claims for the user, tenant and session of their row |
| `SessionAnswers.RefreshSwapsOneRow` | src/modules/auth/auth.service.js:371-413 | a refresh revokes the presented row, adds one for seven days with the same user, tenant and session, and touches no other |
| `SessionAnswers.AuthenticatedIff` | src/modules/auth/auth.middleware.js:49-143 | a request passes exactly with a verified token that was issued, an unexpired unrevoked row of its session and user, and an accepted account; otherwise it is told the first that fails |
| `SessionAnswers.RevokesExactly` | src/modules/auth/auth.service.js:309-502 | every other request revokes exactly the rows that its kind, user, tenant and session name, and changes no row otherwise |
| `SessionAnswers.CountsAreExact` | src/modules/auth/auth.service.js:438-502 | the counts in the answers are the numbers of rows revoked, and a session without one is answered 404 |
| `SessionAnswers.ForgotMakesOneLink` | src/modules/auth/auth.service.js:541-550 | one link for one hour, for an accepted account only, and the same answer in any case |
| `SessionAnswers.ResetIsAnswered` | src/modules/auth/auth.service.js:560-594 | unknown, expired and used links are told so in this order and change nothing; an accepted one marks its own link only |
| `SessionAnswers.LinkWorksForAnHour` | src/modules/auth/auth.service.js:541-594 | a link not yet used works at any time within its hour, whatever else was requested meanwhile |
| `SessionAnswers.CleanupDeletesExactly` | src/jobs/processors/cleanup.processor.js:25-61 | exactly the expired refresh rows, and the reset rows that expired or were used more than 30 days ago, of one tenant or of all, are deleted |
| `SessionCleanup.PrunedStep` | src/jobs/processors/cleanup.processor.js:25-61 | a step taken with and without some expired rows leads to states that differ in expired rows only |
| `SessionCleanup.OnlyExpiredCodesDiffer` | src/modules/auth/auth.service.js:295-308 | a refresh is answered differently if and only if the expired row is gone, and then only its code differs |
| `SessionCleanup.RevokeSessionFindsNothingIff` | src/modules/auth/auth.service.js:491-497 | cleanup turns the revocation of a session into a 404 if and only if it had rows to revoke and all of them, expired, are gone |
| `SessionCleanup.CleanupIsInvisible` | src/jobs/processors/cleanup.processor.js:25-61 | a run with cleanups simulates the run without them, decision by decision, except that 404 |
| `SessionCleanup.CleanupNeverDecides` | src/jobs/processors/cleanup.processor.js:25-61 | cleanups inserted anywhere change no decision of any run, except that 404; without revocations of single sessions, none at all |
| `SessionList.ListSessions` | src/modules/auth/auth.service.js:473-489 | the loop over the rows lists the first row of each session, in order |
| `SessionList.SummaryCovers` | src/modules/auth/auth.service.js:473-489 | every session with a row is listed |
| `SessionList.SummaryDistinct` | src/modules/auth/auth.service.js:473-489 | no session is listed twice |
| `SessionList.SummaryIsNewest` | src/modules/auth/auth.service.js:473-489 | an entry is its session's newest row, and marked current exactly for the caller's session |
| `SessionList.SummaryKeepsTheOrder` | src/modules/auth/auth.service.js:473-489 | entries stand in the order of the rows, each showing the first of its session |
| `SessionList.ListIsTheActiveSessions` | src/modules/auth/auth.repository.js:148-161 | the list has one entry per selected row and names exactly the sessions whose access tokens are accepted |
| `AuthService.Service.constructor` | src/modules/auth/auth.repository.js:124-137 | a database with refresh tokens from before sessions existed is a start of the machine |
| `AuthService.Service.Issue` | src/modules/auth/auth.service.js:698-724 | one new refresh row and the access token that goes with it |
| `AuthService.Service.RevokeRows` | src/modules/auth/auth.repository.js:163-180 | stamps exactly the rows of the set |
| `AuthService.Service.RevokeUserRows` | src/modules/auth/auth.repository.js:170-180 | revokes the user's unrevoked rows except those of a session to keep, and counts them |
| `AuthService.Service.RevokeSessionRows` | src/modules/auth/auth.repository.js:163-168 | revokes the session's unrevoked rows of that user and tenant, and counts them |
| `AuthService.Service.Login` | src/modules/auth/auth.service.js:277-279 | an accepted login is the machine's step |
| `AuthService.Service.Refresh` | src/modules/auth/auth.service.js:290-414 | the checks in the code's order, replay handling and rotation are the machine's step |
| `AuthService.Service.Logout` | src/modules/auth/auth.service.js:416-425 | revokes the presented token if it is known |
| `AuthService.Service.RevokeSession` | src/modules/auth/auth.service.js:491-497 | revokes one session, or answers 404 when no row was found |
| `AuthService.Service.LogoutAll` | src/modules/auth/auth.service.js:499-502 | revokes every row of the user |
| `AuthService.Service.ChangePassword` | src/modules/auth/auth.service.js:438-451 | revokes every row of the user outside the caller's session |
| `AuthService.Service.ForgotPassword` | src/modules/auth/auth.service.js:541-550 | one reset token that expires an hour later, for an account that exists, and the same answer for one that does not |
| `AuthService.Service.ResetPassword` | src/modules/auth/auth.service.js:560-594 | refuses unknown, expired and used tokens in this order, else marks it used and revokes the user's rows |
| `AuthService.Service.Authenticate` | src/modules/auth/auth.middleware.js:49-143 | accepts a verified token exactly while its session holds an unexpired, unrevoked row |
| `AuthService.Service.CleanupExpired` | src/jobs/processors/cleanup.processor.js:25-61 | the deletions, one after another, are the machine's cleanup |
| `CacheKeys.JoinInjective` | src/common/cache/cache.keys.js:11-80 | colon-separated segments can be read back in one way only |
| `CacheKeys.RenderInjective` | src/common/cache/cache.keys.js:11-80 | different tenants, families, users, endpoints or digests never share a key |
| `CacheKeys.GlobIsPrefix` | src/common/cache/cache.service.js:95-100 | a plain prefix and a star match exactly the strings with that prefix |
| `CacheKeys.TenantPatternMatches` | src/common/cache/cache.keys.js:27-80 | a pattern below a tenant matches keys of that tenant only, those whose tail starts the same way |
| `CacheKeys.UserPermissionsPatternIsExact` | src/common/cache/cache.keys.js:27-29 | matches exactly the tenant's user permission keys |
| `CacheKeys.ProductListPatternIsExact` | src/common/cache/cache.keys.js:55-57 | matches exactly the tenant's product list keys |
| `CacheKeys.DashboardPatternIsExact` | src/common/cache/cache.keys.js:63-65 | matches exactly the tenant's dashboard keys |
| `CacheKeys.AnalyticsPatternIsExact` | src/common/cache/cache.keys.js:78-80 | matches exactly the tenant's report keys |
| `CacheKeys.IdsPassIff` | src/common/cache/cache.keys.js:4-9 | an id passes, and a builder does not throw, exactly for 1 to 64 letters, digits, underscores and hyphens: the first of the two tests adds nothing |
| `CacheKeys.KeysReadAs` | src/common/cache/cache.keys.js:11-25 | the keys of a tenant, its settings and its permissions, character by character |
| `CacheKeys.ReportKeysReadAs` | src/common/cache/cache.keys.js:31-76 | those of product lists, the dashboard and reports |
| `CacheKeys.PatternsReadAs` | src/common/cache/cache.keys.js:27-80 | and the four patterns |
| `AnalyticsKeys.SharedKeyIff` | src/modules/analytics/analytics.service.js:7-20 | two report requests share an entry exactly when tenant, endpoint and digest agree, hence exactly when tenant, endpoint and normalised parameters do unless the digest confuses these two |
| `AnalyticsKeys.ReadsFactorThroughTheKey` | src/modules/analytics/analytics.service.js:7-20 | what each report reads of its parameters is a function of the normalised parameters, which are their own normal form |
| `AnalyticsKeys.ReadsExactly` | src/modules/analytics/analytics.repository.js:62-622 | which parameters each report reads: two queries are one question to it if and only if they agree on those; no status and COMPLETED are one to the revenue report, and limits from 100 are one |
| `AnalyticsKeys.SharedKeyReadsAlike` | src/modules/analytics/analytics.repository.js:149-158 | requests that may share an entry ask the same question |
| `AnalyticsKeys.BeforeWord` | src/modules/analytics/analytics.service.js:110-115 | where `split` cuts a key: before the first inner segment that is the word |
| `AnalyticsKeys.EndpointPatternMatches` | src/modules/analytics/analytics.service.js:109-116 | what an endpoint's invalidation pattern matches, for every key and tenant id |
| `AnalyticsKeys.EndpointPatternIsExactIff` | src/modules/analytics/analytics.service.js:109-116 | it is exact if and only if the tenant's id is not the endpoint's name |
| `AnalyticsCache.HitByAll` | src/modules/analytics/analytics.service.js:101-119 | together the six patterns cover exactly the tenant's reports, or everything below a tenant called like an endpoint |
| `AnalyticsCache.Reports.CachedFetch` | src/modules/analytics/analytics.service.js:37-69 | what is returned was loaded less than one lifetime ago for parameters of the same digest, so for equivalent parameters unless an earlier load collides; when it hits, what it stores, and that only a failing load or a bad id is an error |
| `AnalyticsCache.Reports.DeleteEndpoint` | src/modules/analytics/analytics.service.js:110-115 | removes only what the endpoint's pattern covers, and all of it if the scan completes |
| `AnalyticsCache.Reports.InvalidateCache` | src/modules/analytics/analytics.service.js:101-119 | removes exactly the tenant's reports, and nothing of another tenant whatever fails |
| `AnalyticsCache.FetchTwice` | src/modules/analytics/analytics.service.js:37-69 | on a new cache the first fetch loads and the second is a hit with the same data |
| `AnalyticsCache.ScanExists` | src/common/cache/cache.service.js:95-100 | a scan with the guarantees assumed of Redis exists for every store and pattern |
| `CacheService.Cache.Get` | src/common/cache/cache.service.js:46-57 | an unexpired entry, or nothing when the call fails |
| `CacheService.Cache.Set` | src/common/cache/cache.service.js:59-75 | stores with an expiry for a positive lifetime, and changes nothing when the call fails |
| `CacheService.Cache.Del` | src/common/cache/cache.service.js:77-87 | removes one key, or nothing when the call fails |
| `CacheService.Cache.DelByPattern` | src/common/cache/cache.service.js:89-108 | the SCAN loop removes exactly the matching keys; stopped half-way it has removed the pages before, and returns 0 |
| `CacheValues.HitShowsTheMissIff` | src/common/cache/cache.service.js:16-31 | a hit shows the client the JSON that the miss showed if and only if no visible field was stripped; Dates and Decimals survive |
| `CacheValues.StoredIsCleanIff` | src/common/cache/cache.service.js:11-31 | what is stored shows no secret, at any depth, if and only if no class instance in the value does |
| `CacheValues.HitLosesACount` | src/common/cache/cache.service.js:6-9 | a count of tokens is shown by the miss and not by the hit |
| `CacheValues.InstanceKeepsItsToken` | src/common/cache/cache.service.js:21 | a token inside an instance of a class is stored as it is |
| `CacheValues.RoundTrip` | src/common/cache/cache.service.js:46-53 | what is read back shows the same JSON as what was stored |
| `CacheValues.FiveWordsDecide` | src/common/cache/cache.service.js:4-9 | of the ten listed words five decide which fields are dropped, since each of the others holds one of them; `__proto__` is dropped too |
| `CacheValues.WordsAreDropped` | src/common/cache/cache.service.js:4-9 | a key with one of the five anywhere in it, in any case, is dropped |
| `CacheValues.FieldsSurviveTheCache` | src/common/cache/cache.service.js:16-31 | any other field is read back: primitives as they are, timestamps and Decimals as their text, arrays and objects as such, and what JSON cannot hold not at all |
| `CacheValues.GetOrSet` | src/common/cache/cache.service.js:110-120 | exactly when it is a hit, which a stored null is not; a hit returns the stored value and changes nothing, a miss returns the load and stores its stripped form with its lifetime unless there is nothing to store or the call fails |
| `CacheAside.RunKeeps` | src/modules/auth/authorization.middleware.js:94-149 | entries and readers stay explained by past database versions, whatever interleaves |
| `CacheAside.StalenessIsBounded` | src/modules/auth/authorization.middleware.js:94-149 | every returned value was read from versions current no earlier than now - TTL - the longest load-to-set delay |
| `CacheAside.BoundedStaleness` | src/modules/auth/authorization.middleware.js:94-149 | a permission list: its roles from the version at the start of the load, their permissions from one no later than the return |
| `CacheAside.ReportsAreBounded` | src/modules/analytics/analytics.service.js:37-69 | a report: each of its queries was answered by a version within that bound, in whatever order they ran |
| `CacheAside.ReportIsOneVersionIfOneQueryChanges` | src/modules/analytics/analytics.service.js:37-69 | in every run, a report during which at most one query's answer changed is the direct answer of one version within the bound |
| `CacheAside.ServedForItsLifetime` | src/common/cache/cache.config.js:1-14 | what was cached is served until its 300, 180 or 60 seconds are over, whatever is written in between, and not longer, nor after its key is dropped: the bound is reached |
| `TornReads.HarmlessWindow` | src/modules/auth/authorization.middleware.js:107-127 | without a role change that comes with, or before, a change of those roles' permissions, two reads give the answer of one version in between |
| `TornReads.WindowIsHarmlessIff` | src/modules/auth/authorization.middleware.js:107-127 | for every window of writes: it is harmless for every content of the database if and only if it has that form |
| `TornReads.OneVersionUnlessRolesThenGrants` | src/modules/auth/authorization.middleware.js:94-149 | in every run, a permission list read over a harmless window is the direct answer of one version within the staleness bound |
| `TornReads.HarmfulWindowsTear` | src/modules/auth/authorization.middleware.js:107-127 | for every other window, a run with exactly these writes between the reads returns a list that no version gives |
| `TornReads.TornRead` | src/modules/auth/authorization.middleware.js:107-127 | a concrete run whose answer no version of the database holds |
| `TornReads.ReportWindowIsHarmlessIff` | src/modules/analytics/analytics.repository.js:62-164 | for every window of writes: it is harmless to a report, for every content and order of queries, if and only if it changes at most one query's answer |
| `TornReads.HarmfulWindowsTearReports` | src/modules/analytics/analytics.repository.js:62-164 | for every other window, a run with exactly these changes between two queries returns a report that no version gives |
| `PermissionCache.RolesKeepExact` | src/modules/users/users.service.js:171-229 | after any change of one user's roles, deleting the user's key keeps every remaining entry equal to the database |
| `PermissionCache.TenantKeepsExact` | src/modules/roles/roles.service.js:11-13 | deleting the tenant's pattern after any write confined to the tenant does too |
| `PermissionCache.LeftIsExactIff` | src/modules/auth/authorization.middleware.js:57-73 | after any write, whatever entries are left are exact if and only if the answers of their users did not change |
| `PermissionCache.TenantLeavesExactIff` | src/modules/auth/authorization.middleware.js:66-73 | after a write confined to a tenant only that tenant's users matter |
| `PermissionCache.DeletedUserLeavesExactIff` | src/modules/users/users.service.js:153 | after deleting a user the entries are exact if and only if none of the user's grants anything |
| `PermissionCache.Permissions.GetUserPermissions` | src/modules/auth/authorization.middleware.js:94-149 | an unexpired entry is the answer; otherwise the permissions of exactly the roles held in the tenant are, stored for 300 seconds; with exact entries the answer is the database's whichever cache calls fail |
| `PermissionCache.Permissions.AssignRoles` | src/modules/users/users.service.js:171-193 | which rows exist afterwards: the old ones and, for an active membership, those listed; refusals change nothing; entries are exact again if and only if the delete worked, there was nothing to delete, or the answer is unchanged |
| `PermissionCache.Permissions.RemoveRole` | src/modules/users/users.service.js:195-231 | exactly the one row goes, unless the user or role is unknown, the role is not held, or it is the admin role with one holder; a tenant with an admin keeps one; exact again under the same conditions |
| `PermissionCache.AssignThenAsk` | src/modules/users/users.repository.js:40-66 | after roles were assigned and the key deleted, the next answer is exactly the permissions of the roles held before and of those assigned |
| `PermissionCache.Permissions.SetRolePermissions` | src/modules/roles/roles.service.js:167-176 | the role has exactly the listed permissions afterwards, other roles keep theirs, and unknown or system roles and unknown permissions are refused; entries are exact again if the scan completed, and after a broken scan if and only if no user whose entry is left has another answer; other tenants' entries stay untouched and right |
| `PermissionCache.Permissions.ChangeTenant` | src/modules/auth/authorization.middleware.js:66-73 | the same for every write confined to a tenant |
| `PermissionCache.Permissions.DeleteRole` | src/modules/roles/roles.service.js:98-120 | exactly the rows of the role's users and permissions go, then the tenant's keys; exact again under the same conditions |
| `PermissionCache.Permissions.DeleteUser` | src/modules/users/users.service.js:128-156 | exactly the user's rows go, and no key: entries stay exact if and only if none stored for the user grants anything, and a role is still held if and only if somebody else holds it |
| `CategoryTree.MakeNodes` | src/modules/categories/categories.repository.js:150-156 | the first loop: one fresh node per category, found by its id |
| `CategoryTree.GetTree` | src/modules/categories/categories.repository.js:145-173 | children and roots are exactly the listed categories with that parent, or without one, in list order |
| `CategoryTree.ForestFollowsTheIds` | src/modules/categories/categories.repository.js:158-171 | a category hangs below the one that its parent id names, and is a root exactly if it has none, an empty one or one not listed; children and roots stand in list order |
| `CategoryTree.NodeLevels` | src/modules/categories/categories.repository.js:145-173 | following `children` d times from the roots gives the categories on level d, in order |
| `CategoryTree.LevelCounts` | src/modules/categories/categories.repository.js:158-171 | a category is on level d, once, exactly when its parent chain reaches a root in d steps |
| `CategoryTree.DepthIsBounded` | src/modules/categories/categories.repository.js:158-171 | no category lies as deep as the list is long |
| `CategoryTree.DeeperLevelsAreEmpty` | src/modules/categories/categories.repository.js:158-171 | below that depth the forest is empty |
| `CategoryTree.HeldOnceIffTerminates` | src/modules/categories/categories.repository.js:158-171 | the forest holds a category once if its parent chain ends, and never if it does not |
| `CategoryTree.PermutationIffAcyclic` | src/modules/categories/categories.repository.js:145-173 | the flattened forest is a permutation of the list if and only if no parent chain is cyclic |
| `HttpRetry.RequestWithRetry` | src/integrations/http/http-client.js:52-99 | a call that is not idempotent is sent exactly once; an idempotent one until an attempt is not worth retrying, or retries + 1 times; the last attempt is reported, and the waits add up to delay * sent * (sent - 1) / 2 |
| `HttpRetry.TriangleIs` | src/integrations/http/http-client.js:69-95 | the total wait before the k-th request is delay * k * (k - 1) / 2 |
| `HttpRetry.RetriedStatuses` | src/integrations/http/http-client.js:8-20 | the retried responses are exactly 408, 429 and every status from 500 |
| `HttpRetry.RetriedErrors` | src/integrations/errors/integration-error.js:44-66 | which thrown errors are retried after normalisation |
| `HttpRetry.RetriedOwnErrors` | src/integrations/errors/integration-error.js:24-32 | which provider and application errors are retried, by code, status and message |
| `HttpRetry.ResponsesBecome` | src/integrations/http/http-client.js:74-80 | the error that each response that is not 2xx becomes |
| `HttpRetry.ThrownErrorsBecome` | src/integrations/errors/integration-error.js:44-57 | names, numbers and words anywhere in a message, in any case, that tell a timeout or an outage |
| `HttpRetry.StatusesBecome` | src/integrations/errors/integration-error.js:34-66 | what every other thrown error becomes, by its status |
| `HttpRetry.FinalIsNormal` | src/integrations/errors/integration-error.js:44-66 | what reaches the caller is a successful response or an application error that normalises to itself |
| `StorageKeys.SanitizedIsCanonical` | src/common/storage/storage.service.js:54-84 | whatever the client sends, the name is a clean base and an allowed extension |
| `StorageKeys.FixpointsAreCanonical` | src/common/storage/storage.service.js:54-84 | a name is left alone if and only if it has that form |
| `StorageKeys.SanitizeIsIdempotent` | src/common/storage/storage.service.js:54-84 | sanitising twice is sanitising once |
| `StorageKeys.SanitizedIsSafe` | src/common/storage/storage.service.js:54-84 | one dot, an allowed extension, no separator, no double underscore, at most 105 characters |
| `StorageKeys.NameAndExtension` | src/common/storage/storage.service.js:57-79 | directories with either slash are dropped, the part before the last dot is cleaned, and the extension is written small and kept only for the five image types |
| `StorageKeys.WithoutExtension` | src/common/storage/storage.service.js:55-79 | a name without a dot becomes a `.jpg`, and no name `file.jpg` |
| `StorageKeys.HiddenFile` | src/common/storage/storage.service.js:65-69 | so does one with a leading dot only |
| `StorageKeys.CleanNamesStay` | src/common/storage/storage.service.js:70-76 | a clean name of up to a hundred characters stays, and a longer one is cut there |
| `StorageKeys.OddCharactersAreReplaced` | src/common/storage/storage.service.js:70-72 | between clean parts any run of other characters, dots and underscores becomes one underscore |
| `StorageKeys.NothingLeft` | src/common/storage/storage.service.js:70-76 | a name of nothing else becomes `file` |
| `StorageKeys.SplitJoined` | src/common/storage/storage.service.js:189 | splitting a key on slashes gives its segments back |
| `StorageKeys.ProductKeyPasses` | src/common/storage/storage.service.js:42-46 | generated product keys always pass the check, and splitting them gives the five segments back |
| `StorageKeys.VariantKeyPasses` | src/common/storage/storage.service.js:48-52 | so do variant keys, with seven |
| `StorageKeys.KeyTellsOwner` | src/common/storage/storage.service.js:42-46 | keys of different tenants or products never coincide |
| `StorageKeys.PassesIff` | src/common/storage/storage.service.js:178-195 | which keys pass, and which refusal the others get, by their characters and the length of the tenant segment |
| `Revenue.GetRevenue` | src/modules/analytics/analytics.repository.js:544-622 | summary, the page's rows with refunds from the map, and page numbers; net is gross less refunds in the summary and every row, and a page holds 20 rows or what was asked for, at most 100 |
| `Revenue.OnePaymentMore` | src/modules/analytics/analytics.repository.js:544-594 | one further payment, wherever it stands, moves the summary and its bucket's row by its amount and by one exactly if tenant, status (COMPLETED by default) and both inclusive bounds fit; otherwise nothing changes |
| `Revenue.OneRefundMore` | src/modules/analytics/analytics.repository.js:564-610 | so does one further refund, by tenant, status COMPLETED and bounds |
| `Revenue.NothingIsZero` | src/modules/analytics/analytics.repository.js:544-622 | empty tables give zeros and no bucket |
| `Revenue.OtherTenantsAreInvisible` | src/modules/analytics/analytics.repository.js:544-622 | what other tenants pay and refund changes neither summary, rows nor buckets |
| `Revenue.BuildRefundMap` | src/modules/analytics/analytics.repository.js:595-610 | the map gives every bucket its refund total, 0 where it lists none |
| `Revenue.PagesAreEverything` | src/modules/analytics/analytics.repository.js:546-594 | the pages concatenate to the whole list, and later pages are empty |
| `Revenue.PagesAreFull` | src/modules/analytics/analytics.repository.js:588-620 | every page but the last is full, and none is empty unless the list is |
| `Revenue.PaymentsAddUp` | src/modules/analytics/analytics.repository.js:561-594 | bucketed gross revenue and counts add up to those of the selected payments |
| `Revenue.RefundsAddUp` | src/modules/analytics/analytics.repository.js:595-616 | bucketed refunds add up to all refunds but those of buckets without a row |
| `Revenue.RevenueIsConserved` | src/modules/analytics/analytics.repository.js:544-622 | over all pages the report sums to the summary, refunds short by exactly those of buckets without payments |
| `MinorUnits.NearestExists` | src/integrations/payment/razorpay.client.js:16-20 | every real has a nearest double, so the computation is defined |
| `MinorUnits.MinorUnitsExist` | src/integrations/payment/razorpay.client.js:16-20 | the conversion always has a result |
| `MinorUnits.DigitsOfCode` | src/integrations/payment/razorpay.client.js:13-17 | for every alphabetic code, in any case: seven have no minor digits, five have three, and all others two |
| `MinorUnits.MinorUnitsAreExact` | src/integrations/payment/razorpay.client.js:16-20 | for every Decimal(12,2) amount and currency it is the exact amount in minor units, halves up |
| `MinorUnits.MinorUnitsAreWhole` | src/integrations/payment/razorpay.client.js:16-20 | with two or three digits no rounding remains |
| `MinorUnits.MinorUnitsAdd` | src/integrations/payment/razorpay.client.js:13-20 | in such a currency any number of parts of a bill, converted one by one, add up to the bill |
| `MinorUnits.WholeUnitsAddIff` | src/integrations/payment/razorpay.client.js:13-20 | without minor digits any number of parts add up if and only if what rounding leaves over in them makes less than half a unit together |
| `MinorUnits.TwoPartsAddIff` | src/integrations/payment/razorpay.client.js:13-20 | for two parts: if and only if their remainders round alike apart and together |
| `MinorUnits.WholeUnitsDoNotAdd` | src/integrations/payment/razorpay.client.js:13-20 | without minor digits two halves are charged as two and their sum as one |
| `AuditSanitize.SanitizeValue` | src/modules/audit/audit.sanitize.js:40-66 | the recursive copy, with its test for Decimals as written, is the specification function; primitives are kept, Decimals and dates become their text, and what lies too deep the mark |
| `AuditSanitize.CopiesAreNotLikeDecimal` | src/modules/audit/audit.sanitize.js:47-49 | no copy is taken for a Decimal |
| `AuditSanitize.SanitizeArray` | src/modules/audit/audit.sanitize.js:51-53 | element by element, one level deeper |
| `AuditSanitize.SanitizeObject` | src/modules/audit/audit.sanitize.js:54-64 | field by field, secrets replaced without looking inside |
| `AuditSanitize.UnchangedIffClean` | src/modules/audit/audit.sanitize.js:40-66 | a value is left alone if and only if it is already clean |
| `AuditSanitize.SanitizeIsIdempotent` | src/modules/audit/audit.sanitize.js:40-66 | sanitising twice is sanitising once |
| `AuditSanitize.SecretsAreRedacted` | src/modules/audit/audit.sanitize.js:34-38 | under a sensitive key, at every depth, there is only the mark |
| `AuditSanitize.SecretWords` | src/modules/audit/audit.sanitize.js:2-38 | spelled in small letters without separators, exactly these 25 words are secret keys |
| `AuditSanitize.SpellingDoesNotMatter` | src/modules/audit/audit.sanitize.js:34-38 | underscores, hyphens and capitals anywhere in a key make no difference |
| `AuditSanitize.PathsAreKept` | src/modules/audit/audit.sanitize.js:51-64 | along a path without secrets the result shows what the value shows, sanitised at its depth, unless an object on the path is taken for a Decimal, and then nothing |
| `AuditSanitize.NestingIsBounded` | src/modules/audit/audit.sanitize.js:40-41 | containers in the result end at the depth limit |
| `AuditSanitize.PlainIsUnchangedIff` | src/modules/audit/audit.sanitize.js:40-66 | a shallow value without secrets, dates, decimals and instances is stored as it is if and only if no object in it is taken for a Decimal |
| `AuditSanitize.DisguisedIsLost` | src/modules/audit/audit.sanitize.js:47-49 | an object with such a `constructor` leaves the same trace whatever else it holds |
| `AuditSanitize.DisguiseIff` | src/modules/audit/audit.sanitize.js:47-49 | such an object is lost if and only if the inner name is exactly "Decimal"; one with its own `toString` is copied |

## Left out

- Express, Prisma, Redis, BullMQ and Socket.IO plumbing, logging, metrics, OpenAPI documents, validation schemas,
  `mapProviderResponse` and simple repositories: input and output only, or easy members.
- Cryptography: hashes of tokens are injective, random tokens and ids are fresh, and a verified JWT is a boolean parameter.
  A cache digest is any function to 16 hexadecimal digits; what a collision does is stated, how likely it is is not.
- Idempotency: a handler that never calls `res.json` is the same as one that crashes. Further calls are in
  `IdempotencyAnswers`, for runs without purges; the other theorems are about handlers that answer once, and what a further
  call sends to the client is not modelled.
- Idempotency purges: the theorems over runs with purges assume that no handler older than 24 hours is at work when a
  purge runs; the assumption is shown to be exact, and needed, in the table above.
- Sessions: requests are serialised. `refresh` checks `revokedAt` and rotates later without reading it again, so two
  overlapping refreshes of one token are outside the theorems.
- Sessions: the checks on users, memberships, roles, tenants and passwords are one boolean parameter per request; their
  order among themselves and their codes are not modelled. Email verification, support sessions and `optionalAuthenticate`
  are not part of the model.
- SessionCleanup.CleanupNeverDecides: the code of a refused refresh and revoked-row counts may change under cleanup and are
  not compared.
- SessionList.ListSessions: `startedAt`, user agent and address of an entry are left out; purging changes the first.
- CacheAside.ReportsAreBounded: a query's answer is a string, every report sends the queries of its longest form, and the
  time of generation that the overview adds is left out.
- PermissionCache.Permissions.GetUserPermissions: permissions are a set of grants; the order of the list, its repeats and
  the names that go with a permission are left out.
- PermissionCache.Permissions.AssignRoles: which users, roles and permissions exist, and whether a membership is active, are
  parameters of each operation; `assignPermissions` and `removePermission` change one role's permissions in the same way.
- CacheService.Cache.Set: the stored value is abstract here; what `stripSensitive` and JSON make of it is in `CacheValues`,
  which leaves out the JSON text itself, numbers that JSON cannot write, and values whose `toJSON` throws.
- CacheKeys: the normalisation inside `productListKey`, and the caches of products and the dashboard beyond their keys
  and patterns; glob patterns with character classes, which no builder produces.
- AnalyticsCache.Reports.CachedFetch: a report that is JSON `null` reads as a miss in the code; reports are strings here.
- Strings are sequences of code units; changing case is modelled for ASCII and for the letters outside ASCII that turn into
  a single ASCII letter.
- HttpRetry: headers, bodies, metrics and request ids of provider calls; an absent status is 0 and an absent text empty.
- Revenue: the ungrouped branch, the parsing of date bounds, decimal strings and the SQL text; money is in cents.
  `getSales` and `getOrders` group in the same way and are left out as easier.
- AuditSanitize.SanitizeValue: invalid dates (`toISOString` throws), cyclic values (the code stops at the depth limit), the
  reordering of integer-like keys, and the prototype that assigning an object to `__proto__` sets on the copy. Values that
  only code can make: a function as own `constructor` or `toString`, and classes that print something else than
  "[object Object]". `password_hash` and `token_hash` in the list of secrets can never match, since
  underscores are removed first; they are kept in the list as the code has them.
- Orders, payments, inventory, taxes, point of sale and roles beyond the points above.
