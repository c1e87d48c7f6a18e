# NestIdP: verified model of its stateful protocols

NestIdP is a SAML identity provider. This project models the parts of it whose promises depend on how
reads, guarded writes, timers and callers interleave, and proves those promises for all inputs, all runs and all
reachable states.

`dafny verify dfyconfig.toml` checks the whole project.

## What is modelled

- **Back-channel logout** (`LogoutQueue`, `LogoutProtocol`, `LogoutDelivery`, `LogoutBatch`, `LogoutDrain`,
  `LogoutPropagationService`): the delivery queue of SAML single logout, statement by statement; any number of workers,
  enqueues, resends and prunes; the jittered backoff; the concurrent delivery of a batch, bounded sends and a queue that
  drains; the service object with its loops.
- **SSO sessions and pending SAML sessions** (`SsoSessionService`, `SsoTerminationProtocol`, `SsoBulkTermination`,
  `SamlSessionProtocol`, `SamlSessionService`): single, bulk and concurrent termination with its fan-out; bind, complete and
  purge of the one-time pending session.
- **Certificate rotation** (`CertSlots`, `CertTiming`, `CertRotationProtocol`, `CertRotationCheck`,
  `CertRotationScheduler`, `IdpSettingsService`, `EncryptionKeys`): the active and pending slot of each kind, every operation
  split where it awaits the database, the automatic check and its timing, and the decryption keys on offer.
- **Brute-force protection** (`RateLimiter`, `RateLimiterLaws`, `AccountLockout`, `IpBan`, `LoginProtection`): the limiter, the
  lockout table, the ban map and the prechecks that combine them.
- **Identity store** (`IdentityStore`, `IdentitySync`, `IdentityAdmin`, `IdentityProtocol`, `IdentityReplication`,
  `IdentityCalls`, `IdentityRepository`, `LikeSearch`): users, groups, roles and memberships of several sources; sync, admin,
  export and import; the escaped search.
- **Migrator** (`StringOps`, `SqlSplitter`, `SqlGuard`, `TransactionControl`, `Migrator`, `MigratorProtocol`, `MigratorAtomicity`,
  `MigratorGuardGap`, `DbMigrator`): the statement splitter and its guard; statements that end the transaction; concurrent
  instances that migrate one database.
- **Settings cache** (`SettingsCache`): reads in flight, writes, invalidations, and the age of what is served.
- **Addresses** (`BitArithmetic`, `IpAddress`, `IpGrammar`, `Cidr`, `ProxyHosts`): literals as integers, mask arithmetic,
  host lists.
- **CSV export and worker pool** (`CsvExport`, `RunPool`).

Each concurrent part is a state machine (`State`, `Event`, `Enabled`, `Next`, runs) in which every database statement or
transaction, and every stretch of code between two awaits, is one atomic step: `LogoutProtocol`, `LogoutDrain`, `LogoutBatch`,
`SsoTerminationProtocol`, `SsoBulkTermination`, `SamlSessionProtocol`, `CertRotationProtocol`, `CertRotationScheduler`,
`AccountLockout` (racing failures), `IdentityProtocol`, `MigratorProtocol`, `SettingsCache` and `RunPool`. Each service that mutates fields is a class
whose methods are proved against value functions. A method of a class that awaits in the source, and an operation of
`IdentitySync`, `IdentityAdmin` or `CertRotationCheck`, is a whole call with nothing else running; the machine beside it
covers the interleavings, and `IdentityCalls`, `AloneIsTerminateBulk` and `DeliveryIsAProtocolRun` show whole calls to be
runs of it. Row ids, texts that are only compared, certificates and keys are numbers; times are
integer milliseconds. Outcomes of foreign code (network, key generation, random numbers, the clock, URL parsing,
`Number()`) are parameters.

## Where the code differs from its documentation

- The limiter is described as a sliding window. It counts in a fixed window that starts at a key's first hit, so one interval
  of a window's length can admit up to twice the maximum, less one (`AdmissionBound`, attained in `BoundIsReached`); `SlidesIff` says exactly
  when it slides.
- The limiter's sweep judges all keys by the window of whoever triggers it. With several window lengths on one instance it
  can forget a running window; `SweepIsSafeIff` gives the exact condition for one sweep, `SharedIsExactIff` for whole runs.
- An automatic completion evaluates the overlap on one read and promotes what a second read finds. If the pending slot is
  replaced in between, a fresh certificate is promoted early (`PromotionCanBeEarly`); `OverlapHoldsIff` gives the exact
  condition over all runs, `OverlapHoldsIffNoStart` what it comes to in the usual one.
- A group or role is meant to be deleted only without members. The count and the delete are two statements, and deleting
  cascades: a membership assigned in between is lost (`AssignmentCanBeLost`); `DeleteLosesIffAssigned` gives the exact condition.
- The lockout's sweep is meant to keep what a quick re-attempt needs. It is invisible exactly until a failure or an unlock hits
  an account it has forgotten (`PruneIsUnobservableIff`).
- The lockout's count is incremented atomically, its lock time is not: an older write that lands last shortens the lock
  (`OlderLockCanLandLast`), and one that outlives a reset locks the next row (`LockCanOutliveReset`); `NewestLockIff` gives the
  exact condition.
- Terminating all sessions, or all of a user, is meant to leave none active. A purge between a session's lookup and its update
  makes the update throw, nothing catches it, and the sessions later in the list stay active (`BulkCanStopShort`); `BulkCallIff`
  gives the exact condition, and `OverIffReached` says which sessions are left.
- `docs/migrations.md` rules out `COMMIT` and says that the guard enforces the rules. The guard refuses `BEGIN` and `END`, but
  accepts `COMMIT` and `ROLLBACK`; with such a file a migration can fail and leave part of its work
  (`CommitPassesTheGuard`). `SoundIff` and `AllOrNothingIff` give the exact conditions.
- Two overlapping terminations of a session both fan its logout out (`OverlappingCallsFanOutTwice`); `FannedOutOnceIff` gives the
  exact condition, and the queue keeps one row (`EnqueueTwiceIsOnce`).
- An invalidation of the settings cache promises that the next read is fresh. A read already in flight can refill the cache
  with the replaced row (`StaleAfterInvalidation`); `CurrentIffNothingStale` gives the exact condition.
- The older RSA-only decryption list is empty while an EC key is active, even if an RSA key is pending
  (`OlderListIsCompleteIff`).
- IPv6 reading accepts a `::` that stands for no group at all, which section 2.2 of RFC 4291 does not provide for
  (`ReadsExactlySpellings` states the accepted grammar).

## Model

| member | source | states |
|---|---|---|
| LogoutQueue.JitterBounds | apps/api/src/saml/services/logout-propagation.service.ts:341-347 | the rounded, jittered delay lies between half and all of the backoff |
| LogoutQueue.JitterIsNearest | apps/api/src/saml/services/logout-propagation.service.ts:341-347 | the delay is the whole number nearest to backoff times (1 + random) / 2 |
| LogoutQueue.BackoffDoubles | apps/api/src/saml/services/logout-propagation.service.ts:341-344 | the first wait is the base, each further one twice the one before, none above the cap |
| LogoutQueue.NewRowIsDueIff | apps/api/src/saml/services/logout-propagation.service.ts:70-93 | a new row is due from its creation on if and only if its service provider has an endpoint |
| LogoutProtocol.ExactlyOneHolder | apps/api/src/saml/services/logout-propagation.service.ts:221-230 | under every interleaving a row is in flight if and only if exactly one worker holds it |
| LogoutProtocol.StatusFixesAttempts | apps/api/src/saml/services/logout-propagation.service.ts:314-370 | in every reachable queue pending means no attempts, failed 1 to maxRetries, given up exactly maxRetries + 1, and a failed row's retry time is within the jitter bounds |
| LogoutProtocol.RequestIdIsStable | apps/api/src/saml/services/logout-propagation.service.ts:71-93 | a row's request id never changes while the row exists, and a pruned row never returns |
| LogoutProtocol.ResolvedRowsAreFinal | apps/api/src/saml/services/logout-propagation.service.ts:294-312 | succeeded and skipped rows never change again; they only leave by a prune past the retention time |
| LogoutProtocol.Reachable | apps/api/src/saml/services/logout-propagation.service.ts:134-370 | the queue invariant holds in every state of every run of workers, enqueues, resends and prunes |
| LogoutDelivery.DeliveryIsAProtocolRun | apps/api/src/saml/services/logout-propagation.service.ts:221-292 | the undisturbed delivery is the protocol's claim followed by one finishing step, or a lost claim |
| LogoutBatch.EveryInterleavingDeliversTheBatch | apps/api/src/saml/services/logout-propagation.service.ts:134-149 | claims and outcomes of a concurrently delivered batch, in any order and with any prune sweeps, end as delivering it row by row does; without a sweep the whole queue is the same |
| LogoutBatch.RowByRowIsABatchRun | apps/api/src/saml/services/logout-propagation.service.ts:134-149 | delivering the batch row by row is one of these runs |
| LogoutDelivery.DeliveriesCommute | apps/api/src/saml/services/logout-propagation.service.ts:147-147 | whole deliveries of different rows give the same queue in either order |
| LogoutDrain.ClaimsAreBounded | apps/api/src/saml/services/logout-propagation.service.ts:134-149 | with no enqueue or resend and passes that do not overlap, under every interleaving of their statements and of prunes, all claims together are bounded by a measure that each claim decreases |
| LogoutDrain.SendsAreBounded | apps/api/src/saml/services/logout-propagation.service.ts:221-370 | in these runs a row is sent at most maxRetries + 1 times, and its attempt count, with the delivery under way, is the number of sends |
| LogoutDrain.QueueDrains | apps/api/src/saml/services/logout-propagation.service.ts:134-149 | in these runs, after as many spaced passes as the measure says, nothing is pending, failed or in flight |
| LogoutPropagationService.LogoutPropagation.PropagateLogout | apps/api/src/saml/services/logout-propagation.service.ts:62-103 | every active, not excluded service provider has a row afterwards; existing rows are untouched; a new row with an endpoint is pending, untried, carries its request id and is due at once, one without is skipped with neither |
| LogoutPropagationService.LogoutPropagation.DeliverRow | apps/api/src/saml/services/logout-propagation.service.ts:221-292 | only a pending or failed row is touched, and no other; its new status, attempts, request id and retry time, column by column; independent of how any notifier hook ends |
| LogoutPropagationService.LogoutPropagation.FindDue | apps/api/src/saml/services/logout-propagation.service.ts:142-146 | the earliest due rows, in order, each once, as many as the limit allows |
| LogoutPropagationService.LogoutPropagation.ProcessDue | apps/api/src/saml/services/logout-propagation.service.ts:134-149 | picks the due batch within concurrency and in-flight cap, and returns its size; the queue afterwards is that of the batch delivered, which the row above shows for every order |
| LogoutPropagationService.LogoutPropagation.RunFirstPass | apps/api/src/saml/services/logout-propagation.service.ts:114-131 | with nothing else at the queue, the loop ends whatever the deadline is; it makes a pass for every clock reading before the deadline until one finds nothing due, and counts those that did |
| LogoutPropagationService.LogoutPropagation.Resend | apps/api/src/saml/services/logout-propagation.service.ts:152-160 | exactly the failed, given-up and partial rows of the pair become pending and due, untried, with their request id; every other row stays |
| LogoutPropagationService.LogoutPropagation.PruneSweep | apps/api/src/saml/services/logout-propagation.service.ts:207-219 | a row stays, as it is, if and only if it is unresolved or was updated within the retention time; returns how many went |
| SsoSessionService.Registry.Terminate | apps/api/src/saml-sessions/services/saml-sso-session.service.ts:132-181 | only an active session changes, and only then its logout fans out |
| SsoSessionService.Registry.TerminateBulk | apps/api/src/saml-sessions/services/saml-sso-session.service.ts:203-226 | with nothing else running: per id the outcome given the ids before it; afterwards every listed session is terminated and no other changed; counts and fan-out are those of the first active occurrences |
| SsoSessionService.FannedOutOnce | apps/api/src/saml-sessions/services/saml-sso-session.service.ts:212-226 | however often ids repeat, each active listed session is fanned out and counted exactly once |
| SsoSessionService.Registry.TerminateAllActive | apps/api/src/saml-sessions/services/saml-sso-session.service.ts:229-242 | with nothing else running: afterwards no session is active, and the count is that of the active ones |
| SsoSessionService.Registry.TerminateAllForUser | apps/api/src/saml-sessions/services/saml-sso-session.service.ts:183-200 | with nothing else running: afterwards no session of the user is active and no other session changed |
| SsoBulkTermination.BulkCallIff | apps/api/src/saml-sessions/services/saml-sso-session.service.ts:183-242 | under every interleaving: a bulk call returns if and only if no session is purged between its lookup and its update, gets through its list if and only if that befalls none but the last, and all it looked up is then terminated or purged |
| SsoBulkTermination.AloneIsTerminateBulk | apps/api/src/saml-sessions/services/saml-sso-session.service.ts:203-226 | with nothing else running, the machine's bulk call gets through its list and returns, and leaves what the method states |
| SsoBulkTermination.OverIffReached | apps/api/src/saml-sessions/services/saml-sso-session.service.ts:183-242 | however a bulk call ends: a session of its list that was active is terminated or purged then if and only if the call looked it up, or someone else terminated or purged it |
| SsoBulkTermination.BulkCanStopShort | apps/api/src/saml-sessions/services/saml-sso-session.service.ts:229-242 | a run in which a purge makes the call throw and leaves the next session active |
| SsoBulkTermination.BulkRunIsARun | apps/api/src/saml-sessions/services/saml-sso-session.service.ts:132-242 | bulk calls are runs of single terminations, so the rows below hold of them too |
| SsoBulkTermination.NoBulkLogoutIsLost | apps/api/src/saml-sessions/services/saml-sso-session.service.ts:132-242 | with bulk calls as well, once all calls have ended a stored session was fanned out if and only if it is terminated |
| SsoTerminationProtocol.NoLogoutIsLost | apps/api/src/saml-sessions/services/saml-sso-session.service.ts:132-181 | however terminations, openings and purges interleave, once all calls have ended a stored session was fanned out if and only if it is terminated |
| SsoTerminationProtocol.TerminationIsFinal | apps/api/src/saml-sessions/services/saml-sso-session.service.ts:138-154 | a terminated session never becomes active again, and a purged one never returns |
| SsoTerminationProtocol.FannedOutOnceIff | apps/api/src/saml-sessions/services/saml-sso-session.service.ts:138-179 | once all calls have ended a stored session was fanned out at most once if and only if no call updated it while another had already checked it |
| SsoTerminationProtocol.OverlappingCallsFanOutTwice | apps/api/src/saml-sessions/services/saml-sso-session.service.ts:138-179 | a run in which two overlapping calls do fan out twice |
| LogoutQueue.EnqueueTwiceIsOnce | apps/api/src/saml/services/logout-propagation.service.ts:71-93 | a second fan-out of a session to a service provider adds nothing to the queue |
| SamlSessionProtocol.UserIsBoundOnce | apps/api/src/auth/services/saml-session-bind.service.ts:31-41 | in every run a pending session's user changes at most once, from none, and a session once gone stays gone |
| SamlSessionProtocol.CompletionsAndParticipations | apps/api/src/saml/services/saml-sso.service.ts:390-491 | no session completes twice, and each live SSO session has as many participations as completions that named it |
| SamlSessionProtocol.CompletedForBoundUser | apps/api/src/saml/services/saml-sso.service.ts:390-491 | a completed login was for the user bound to the session at every earlier moment of the run at which it was bound |
| SamlSessionProtocol.CommitIsForBoundUser | apps/api/src/saml/services/saml-sso.service.ts:390-491 | the transaction that completes a login finds the session still there and bound to that user |
| SamlSessionService.SamlSessions.Create | apps/api/src/saml/services/saml-sso.service.ts:142-160 | a request id is pending at most once; a new session is unbound |
| SamlSessionService.SamlSessions.Bind | apps/api/src/auth/services/saml-session-bind.service.ts:9-42 | exactly when binding succeeds, what it writes, and else which error comes first |
| SamlSessionService.SamlSessions.CompleteSso | apps/api/src/saml/services/saml-sso.service.ts:390-491 | exactly when completion succeeds, and else which error comes first; then session deletion and participation happen together, else nothing |
| SamlSessionService.SamlSessions.PurgeExpired | apps/api/src/saml/services/saml-session-cleanup.service.ts:40-54 | removes exactly the expired pending and SSO sessions, keeping the invariant |
| CertSlots.SlotWrites | apps/api/src/idp-settings/cert-kind/cert-kind-descriptor.ts:99-137 | each column update keeps both slots whole and an active pair present |
| CertSlots.WritesByColumn | apps/api/src/idp-settings/cert-kind/cert-kind-descriptor.ts:99-137 | each update, column by column: what it writes and what it leaves |
| CertRotationProtocol.SlotsAreWhole | apps/api/src/idp-settings/services/idp-settings.service.ts:218-302 | under every interleaving each slot holds one pair's certificate, key and metadata or nothing, and pending implies active |
| CertRotationProtocol.ActiveIsNeverLost | apps/api/src/idp-settings/services/idp-settings.service.ts:432-473 | an active pair, once present, is never nulled, although writes use earlier reads |
| CertRotationProtocol.LoserGetsStoredPair | apps/api/src/saml/services/idp-signing.service.ts:44-87 | a caller that loses the first-use claim returns the stored pair on its next read |
| CertRotationProtocol.OverlapHoldsIff | apps/api/src/idp-settings/services/idp-settings.service.ts:731-761 | whatever is written between evaluation and second read, what is promoted had its overlap if and only if the rotation started last is as old as the effective overlap for the certificate made active last |
| CertRotationProtocol.OverlapHoldsIffNoStart | apps/api/src/idp-settings/services/idp-settings.service.ts:731-761 | in the usual case of only cancels and new starts between evaluation and second read, what is promoted had its overlap if and only if no rotation was started in between |
| CertRotationProtocol.PromotionRespectsOverlap | apps/api/src/idp-settings/services/idp-settings.service.ts:731-761 | with no write to the kind at all between the two, what is promoted had its overlap |
| CertRotationProtocol.PromotionCanBeEarly | apps/api/src/idp-settings/services/idp-settings.service.ts:731-761 | a run that promotes a certificate pending for no time, the condition above failing |
| CertTiming.OverlapElapsedMeans | apps/api/src/idp-settings/services/idp-settings.service.ts:810-822 | an automatic completion happens exactly when the pending certificate is as old as the configured overlap or the active one's whole days left |
| CertRotationCheck.CheckIsSafe | apps/api/src/idp-settings/services/idp-settings.service.ts:592-663 | a check keeps slots whole and active, writes nothing when off or dry, and promotes only after the overlap |
| CertRotationCheck.StartsIff | apps/api/src/idp-settings/services/idp-settings.service.ts:592-663 | with nothing pending a rotation starts if and only if the certificate is inside its lead window and, at boot, expires within the grace; a failed generation counts and at the threshold switches the kind off; else nothing changes |
| CertRotationCheck.CompletesIff | apps/api/src/idp-settings/services/idp-settings.service.ts:731-761 | a pending rotation is completed if and only if it is as old as the overlap or the whole days left; else nothing changes |
| CertRotationCheck.FailuresDisable | apps/api/src/idp-settings/services/idp-settings.service.ts:763-801 | consecutive generation failures count up to the threshold, then switch the kind off; the certificates stay |
| CertRotationCheck.PendingInsideWindow | apps/api/src/idp-settings/services/idp-settings.service.ts:592-663 | until it is replaced, a certificate inside its lead window has a rotation pending after every tick, but for a boot tick that comes before the grace |
| CertRotationCheck.ReplacedBeforeExpiry | apps/api/src/idp-settings/services/idp-settings.service.ts:592-761 | with ticks at most a day apart the active certificate is replaced no later than its expiry, if the first tick comes early enough: half the lead time suffices before the window, one period inside it, two after a boot tick that puts the rotation off |
| CertRotationScheduler.Scheduler.BeginTick | apps/api/src/idp-settings/services/cert-rotation-scheduler.service.ts:60-66 | the object takes the timer step of the protocol, keeps its invariant, and returns the trigger of an evaluation exactly if one starts |
| CertRotationScheduler.Scheduler.EndTick | apps/api/src/idp-settings/services/cert-rotation-scheduler.service.ts:68-85 | the object takes the ending step of the protocol however the evaluation went, and updates the gauges |
| CertRotationScheduler.TicksNeverOverlap | apps/api/src/idp-settings/services/cert-rotation-scheduler.service.ts:60-86 | however the timer fires, at most one evaluation runs, and exactly the first has the boot trigger |
| IdpSettingsService.IdpSettings.InstallPrimary | apps/api/src/idp-settings/services/idp-settings.service.ts:218-257 | installs the pair as a whole unless a rotation is pending |
| IdpSettingsService.IdpSettings.StartRotation | apps/api/src/idp-settings/services/idp-settings.service.ts:259-302 | succeeds exactly with an active and no pending pair; the active columns stay |
| IdpSettingsService.IdpSettings.CompleteRotation | apps/api/src/idp-settings/services/idp-settings.service.ts:432-452 | refused during a check or with nothing pending; else the pending pair becomes the active one |
| IdpSettingsService.IdpSettings.CancelRotation | apps/api/src/idp-settings/services/idp-settings.service.ts:454-473 | drops the pending pair and keeps the active one |
| IdpSettingsService.IdpSettings.SetAutoRotation | apps/api/src/idp-settings/services/idp-settings.service.ts:125-216 | switching on forgets earlier failures and never touches the certificates |
| IdpSettingsService.IdpSettings.EvaluateKind | apps/api/src/idp-settings/services/idp-settings.service.ts:592-729 | the branches amount to the check function, a failed generation being thrown |
| IdpSettingsService.IdpSettings.RunAutoRotationCheck | apps/api/src/idp-settings/services/idp-settings.service.ts:546-585 | both kinds are checked, a failure of one not keeping the other from its check; a nested call does nothing |
| EncryptionKeys.OneKeyPerPublishedCert | apps/api/src/saml/services/idp-encryption-key.service.ts:69-139 | in every reachable state each published encryption certificate has exactly its own private key on offer, and no other key is |
| EncryptionKeys.OlderListIsCompleteIff | apps/api/src/saml/services/idp-encryption-key.service.ts:19-55 | the older list equals the RSA list exactly unless an EC key is active while an RSA key is pending |
| RateLimiter.SlidingWindowRateLimiter.Check | apps/api/src/common/rate-limit/sliding-window-rate-limiter.ts:32-47 | verdict of the key's running window; only an expired bucket is dropped |
| RateLimiter.SlidingWindowRateLimiter.Record | apps/api/src/common/rate-limit/sliding-window-rate-limiter.ts:50-59 | sweeps if due, then starts or increments the key's window |
| RateLimiter.SlidingWindowRateLimiter.Hit | apps/api/src/common/rate-limit/sliding-window-rate-limiter.ts:62-65 | records first and then judges, so the hit itself counts |
| RateLimiter.SlidingWindowRateLimiter.MaybePrune | apps/api/src/common/rate-limit/sliding-window-rate-limiter.ts:90-100 | at most one sweep per interval; the loop removes exactly the buckets expired for the caller's window |
| RateLimiterLaws.CleanupIsUnobservable | apps/api/src/common/rate-limit/sliding-window-rate-limiter.ts:32-100 | with one window length and a monotone clock the limiter answers every operation of every run as one that never deletes |
| RateLimiterLaws.SweepIsSafeIff | apps/api/src/common/rate-limit/sliding-window-rate-limiter.ts:90-100 | with two window lengths a sweep is invisible if and only if the sweeping window is not the shorter one |
| RateLimiterLaws.RetryAfterIsExact | apps/api/src/common/rate-limit/sliding-window-rate-limiter.ts:43-45 | the key stays limited before the reported time has passed and not when it has |
| RateLimiterLaws.AdmissionBound | apps/api/src/auth-protection/login-protection.service.ts:100-119 | check-then-record admits at most twice the maximum, less one, in any half-open interval of window length |
| RateLimiterLaws.BoundIsReached | apps/api/src/auth-protection/login-protection.service.ts:100-119 | for every maximum and window of two milliseconds or more a run that attains the bound |
| RateLimiterLaws.SlidesIff | apps/api/src/common/rate-limit/sliding-window-rate-limiter.ts:1-10 | the documented sliding window (at most the maximum in every interval of window length, in every run) holds if and only if the maximum is 1 or the window a single millisecond |
| RateLimiterLaws.SharedLimiterIsExact | apps/api/src/common/rate-limit/sliding-window-rate-limiter.ts:32-100 | on a limiter shared by callers with several windows, a key whose window no sweeping caller undercuts is answered in every run as if alone and never swept |
| RateLimiterLaws.SharedIsExactIff | apps/api/src/common/rate-limit/sliding-window-rate-limiter.ts:32-100 | with two windows on one limiter, a key is answered in every run as if alone and never swept if and only if the other window is no shorter than its own |
| RateLimiterLaws.SharedAdmissionBound | apps/api/src/auth-protection/login-protection.service.ts:100-119 | the admission bound for such a key of the shared limiter |
| AccountLockout.AccountLockoutService.Check | apps/api/src/auth-protection/account-lockout.service.ts:52-71 | locked exactly while the lock runs, with the exact time left |
| AccountLockout.AccountLockoutService.RecordFailure | apps/api/src/auth-protection/account-lockout.service.ts:74-117 | the increment, and from the threshold on the doubling, capped lock |
| AccountLockout.PruneIsUnobservableIff | apps/api/src/auth-protection/account-lockout.service.ts:52-192 | over whole runs every answer is that of a table never swept if and only if no failure or unlock hits an account whose row a sweep deleted |
| AccountLockout.AnswersAlikeUntilForgotten | apps/api/src/auth-protection/account-lockout.service.ts:175-192 | until the first such operation every check, count and failure is answered as without sweeps |
| AccountLockout.SweepCanForgive | apps/api/src/auth-protection/account-lockout.service.ts:175-192 | a run in which a sweep between two failures keeps an account unlocked |
| AccountLockout.PruneKeepsEscalation | apps/api/src/auth-protection/account-lockout.service.ts:176-191 | a failure within the horizon after a lock counts on after a sweep |
| AccountLockout.AccountLockoutService.Prune | apps/api/src/auth-protection/account-lockout.service.ts:175-192 | a row stays, as it is, if and only if its lock end, or its last failure if it was never locked, is no longer ago than the larger of the two longest locks |
| AccountLockout.RecentFailureCountsOn | apps/api/src/auth-protection/account-lockout.service.ts:175-192 | in every run, whatever sweeps come between, a failure within the longest lock of the account's last one counts on from it, below the threshold too |
| AccountLockout.CountsAttempts | apps/api/src/auth-protection/account-lockout.service.ts:87-115 | after k failures the count is k and the lock is the one the formula gives for k |
| AccountLockout.FailuresAreSpaced | apps/api/src/auth-protection/account-lockout.service.ts:52-117 | the m-th consecutive failure comes at least the sum of all capped doubling locks after the threshold-th |
| AccountLockout.RacingFailures | apps/api/src/auth-protection/account-lockout.service.ts:83-117 | however failures and resets interleave no failure is lost, the lock is that of the write which landed last on the row, and none outlasts maxMs after the last failure |
| AccountLockout.NewestLockIff | apps/api/src/auth-protection/account-lockout.service.ts:102-115 | in every run, once no lock write is outstanding: exactly when the account has the lock its count asks for, told by the write that landed last on its row, and whether that one is from before a reset |
| AccountLockout.OlderLockCanLandLast | apps/api/src/auth-protection/account-lockout.service.ts:102-115 | a run in which an older write lands last and the account is not locked |
| AccountLockout.LockCanOutliveReset | apps/api/src/auth-protection/account-lockout.service.ts:102-129 | a run in which a write that outlives a reset locks an account below the threshold |
| IpBan.IpBanService.Prune | apps/api/src/auth-protection/ip-ban.service.ts:38-47 | the loop removes exactly the expired bans and counts them |
| IpBan.IpBanService.Check | apps/api/src/auth-protection/ip-ban.service.ts:51-65 | banned exactly while the ban runs, with the exact time left |
| IpBan.IpBanService.RecordTrip | apps/api/src/auth-protection/ip-ban.service.ts:68-90 | the trip's new state and answer over the limiter and the ban map together |
| IpBan.SweepIsUnobservable | apps/api/src/auth-protection/ip-ban.service.ts:38-90 | over whole runs of trips, checks and sweeps every answer is that of a service which never deletes a ban |
| IpBan.AnnouncedExactlyOnTransition | apps/api/src/auth-protection/ip-ban.service.ts:74-89 | bannedNow is reported exactly when the observed trips reach the threshold and no ban runs |
| IpBan.BanHolds | apps/api/src/auth-protection/ip-ban.service.ts:51-90 | from its announcement on, through any trips, checks and sweeps, every check says banned until the ban time is over |
| IpBan.AnnouncementsAreSpaced | apps/api/src/auth-protection/ip-ban.service.ts:81-89 | announcements for one address are at least a ban time apart |
| LoginProtection.LoginProtectionService.PrecheckSso | apps/api/src/auth-protection/login-protection.service.ts:100-119 | ban, then throttle, then count; what a trusted address skips; which refusals are trips |
| LoginProtection.KeysAreDistinct | apps/api/src/auth-protection/login-protection.service.ts:100-119 | addresses, usernames, the two scopes and the SSO endpoint never share a counter |
| LoginProtection.LoginProtectionService.PrecheckLogin | apps/api/src/auth-protection/login-protection.service.ts:54-97 | the order of the four checks, their retry times, that nothing is counted, that trust never skips the lockout, and which refusals are trips |
| LoginProtection.LoginProtectionService.RecordLoginFailure | apps/api/src/auth-protection/login-protection.service.ts:122-149 | both throttle keys and the account count; a lock is a trip unless trusted |
| LoginProtection.LoginProtectionService.RecordLoginSuccess | apps/api/src/auth-protection/login-protection.service.ts:152-160 | clears exactly the two throttle keys and the account |
| IdentitySync.UpsertWriteIsGuarded | apps/api/src/identity/identity.repository.ts:126-208 | the upsert statement alone fails with the store unchanged, or writes only the synced row of its connection and external id, every column as given |
| IdentitySync.UpsertEntryIsGuarded | apps/api/src/identity/identity.repository.ts:268-326 | the same for groups and roles |
| IdentitySync.OrphansDeleted | apps/api/src/identity/identity.repository.ts:355-377 | deleting orphans leaves a group or role exactly if it is manual, of another connection, or seen, and a membership exactly if its group or role stays |
| IdentitySync.RemovedMeans | apps/api/src/identity/identity.repository.ts:904-931 | removal in delete mode takes exactly the synced rows of the connection and the memberships of what it takes |
| IdentityProtocol.InvHolds | apps/api/src/identity/identity.repository.ts:126-743 | however syncs of any sources and admin calls interleave, checks and writes being separate steps, keys stay unique, memberships within one source and manual rows local |
| IdentityProtocol.SyncWritesStayInTheirSource | apps/api/src/identity/identity.repository.ts:126-376 | however stale its checks, a write of a sync leaves every manual row and every row and membership of other sources unchanged |
| IdentityProtocol.AdminWritesStayLocal | apps/api/src/identity-admin/services/identity-admin.service.ts:160-399 | however stale its checks, a write of an admin call leaves synced rows and other sources unchanged |
| IdentityProtocol.DeleteLosesIffAssigned | apps/api/src/identity-admin/services/identity-admin.service.ts:308-316 | the delete of a group or role loses memberships if and only if one was assigned after its member count and not taken away again, and none of any other entry |
| IdentityProtocol.DeleteLosesNothingUndisturbed | apps/api/src/identity-admin/services/identity-admin.service.ts:308-316 | it loses nothing when no membership of the entry is written between count and delete |
| IdentityProtocol.AssignmentCanBeLost | apps/api/src/identity-admin/services/identity-admin.service.ts:308-316 | from any state without calls, a run in which a successful assignment is lost to a delete that had counted before |
| IdentityAdmin.PutUserWriteIsSafe | apps/api/src/identity/identity.repository.ts:454-523 | the transaction of a manual user, whatever was checked before it: unchanged on error, else exactly the listed memberships |
| IdentityAdmin.DeleteEntryWriteIsSafe | apps/api/src/identity/identity.repository.ts:636-638 | deleting a manual group or role takes its memberships, if it has any, and nothing else |
| IdentitySync.SyncOpIsSafe | apps/api/src/identity/identity.repository.ts:126-376 | with nothing between its statements, a sync operation leaves manual rows and other sources unchanged and changes nothing on error |
| IdentitySync.ReplaceMembersIsSafe | apps/api/src/identity/identity.repository.ts:210-266 | with nothing between check and write, replacing leaves exactly the listed memberships |
| IdentitySync.RemovalIsComplete | apps/api/src/identity/identity.repository.ts:904-931 | delete mode leaves nothing synced from the connection and no dangling membership |
| IdentityStore.ReplacedIsSafe | apps/api/src/identity/identity.repository.ts:210-238 | the delete-and-insert keeps both invariants and leaves exactly the listed memberships |
| IdentityAdmin.ValidIdsMeans | apps/api/src/identity-admin/services/identity-admin.service.ts:525-546 | the two counts equal the list's length exactly when the list names existing entries of the source, each once |
| IdentityAdmin.CreateUserIsSafe | apps/api/src/identity-admin/services/identity-admin.service.ts:160-186 | with nothing between its statements, creates a manual local user with exactly the listed memberships or changes nothing |
| IdentityAdmin.UpdateUserIsSafe | apps/api/src/identity-admin/services/identity-admin.service.ts:188-226 | with nothing between its statements: exactly when updating a manual user succeeds; then its row is patched and it has exactly the listed memberships, else nothing changes |
| IdentityAdmin.PatchedColumns | apps/api/src/identity-admin/services/identity-admin.service.ts:188-226 | a field given is written, one absent stays, and what identifies the row stays |
| IdentityAdmin.CreateUserMeans | apps/api/src/identity-admin/services/identity-admin.service.ts:160-186 | with nothing between its statements: exactly when creating a user succeeds, and the row it writes, column by column |
| IdentityAdmin.CreateEntryMeans | apps/api/src/identity-admin/services/identity-admin.service.ts:287-294 | with nothing between its statements: exactly when creating a group or role succeeds, and the one row it adds |
| IdentityAdmin.RenameEntryMeans | apps/api/src/identity-admin/services/identity-admin.service.ts:296-306 | with nothing between its statements: exactly when renaming succeeds, and that only the name changes |
| IdentityAdmin.DeleteEntryMeans | apps/api/src/identity-admin/services/identity-admin.service.ts:308-316 | with nothing between its statements: exactly when deleting a group or role succeeds, and that only it goes |
| IdentityAdmin.DeleteUserMeans | apps/api/src/identity-admin/services/identity-admin.service.ts:228-234 | a manual user goes with its memberships, and nothing else |
| IdentityAdmin.GuardsSuffice | apps/api/src/identity-admin/services/identity-admin.service.ts:188-226 | with nothing between its statements, the guards of an update leave no constraint for its transaction to violate |
| IdentityAdmin.EntryOpIsSafe | apps/api/src/identity-admin/services/identity-admin.service.ts:287-316 | with nothing between its statements, creating, renaming and deleting groups and roles loses no membership |
| IdentityCalls.AdminCallIsARun | apps/api/src/identity-admin/services/identity-admin.service.ts:160-316 | an admin call that succeeds with nothing else running is a run of the machine, checks and write one after the other, in any state of the other calls |
| IdentityCalls.SyncOpIsARun | apps/api/src/identity/identity.repository.ts:126-377 | the same for every operation of a sync |
| IdentityReplication.InsertMissingKeepsRows | apps/api/src/identity/identity.repository.ts:763-884 | insert-missing never alters a row that was there |
| IdentityReplication.ImportedRows | apps/api/src/identity/identity.repository.ts:763-884 | an import adds the rows that were missing as listed, merges or keeps those that were there, and touches no other |
| IdentityReplication.MergedColumns | apps/api/src/identity/identity.repository.ts:763-884 | an upsert import over a row that is there writes the listed columns and keeps its identity, origin and creation time |
| IdentityReplication.RefusedIff | apps/api/src/identity/identity.repository.ts:763-884 | a listed user is refused exactly if its id was issued since the import looked, or writing it would break a unique key |
| IdentityReplication.EntryRefusedIff | apps/api/src/identity/identity.repository.ts:763-884 | the same for groups and roles, by name within a connection |
| IdentityReplication.Chunk | apps/api/src/identity/identity.repository.ts:35-41 | consecutive parts of the given size that together are the list |
| IdentityReplication.PartsCoverNewPairs | apps/api/src/identity/identity.repository.ts:763-884 | inserting in parts adds each new membership exactly once, however the list is cut |
| IdentityReplication.TablesIntoEmpty | apps/api/src/identity/identity.repository.ts:746-884 | importing an export into an empty store, in either mode, reproduces every row, also if a write tore the export |
| IdentityReplication.TablesIntoSelf | apps/api/src/identity/identity.repository.ts:763-884 | importing a store's own export, in either mode, changes nothing |
| IdentityReplication.MembersComplete | apps/api/src/identity/identity.repository.ts:763-884 | once the rows are there, importing adds exactly the missing memberships, both ends present |
| IdentityReplication.MembersIntoEmptyIff | apps/api/src/identity/identity.repository.ts:746-884 | the memberships of an export, torn or not, go into the empty store if and only if none of them lacks its user, group or role; else the import stops |
| IdentityRepository.Repository.UpsertUser | apps/api/src/identity/identity.repository.ts:126-208 | fails exactly on a username held elsewhere or a manual row; else writes exactly that row: username, email, display name, password hash and active flag as given, identity, origin and creation time kept |
| IdentityRepository.Repository.ReplaceMembers | apps/api/src/identity/identity.repository.ts:210-266 | with nothing between check and write: the exact condition of each error; else exactly the listed memberships |
| IdentityRepository.Repository.DeactivateUsersNotIn | apps/api/src/identity/identity.repository.ts:328-353 | the loop deactivates exactly the active synced users not seen, and counts them |
| IdentityRepository.Repository.RemoveConnection | apps/api/src/identity/identity.repository.ts:904-931 | deactivation in chunks of 200 amounts to deactivating all; deletion removes all; other sources untouched |
| IdentityRepository.Repository.ImportSnapshot | apps/api/src/identity/identity.repository.ts:763-884 | round trip: into an empty store an export yields the exported store, into the store itself no change; a torn export goes into an empty store if and only if no membership dangles; insert-missing keeps rows; counts match |
| LikeSearch.SearchMatchesContains | apps/api/src/identity/identity.repository.ts:406-423 | the escaped pattern under LIKE with ESCAPE matches exactly the texts that contain the term, for every mix of wildcards and escapes |
| LikeSearch.EscapedIsPrefix | apps/api/src/identity/identity.repository.ts:43-46 | an escaped term followed by a percent sign matches exactly the texts that begin with it |
| LikeSearch.PercentMeans | apps/api/src/identity/identity.repository.ts:406-423 | in the pattern language the proofs are about, a percent sign stands for any text, also the empty one |
| SqlSplitter.AssertSplittableSql | apps/api/src/prisma/db-migrator.ts:63-117 | the scan loop and keyword tests decide exactly the guard function, with the first reason |
| SqlSplitter.BlankLiterals | apps/api/src/prisma/db-migrator.ts:71-100 | the index loop with its skips computes the recursive walk, error cases included |
| SqlSplitter.ScanAccepts | apps/api/src/prisma/db-migrator.ts:71-100 | the walk accepts exactly the texts whose literals all end and hold no semicolon, literals being told by toggling at each quote |
| SqlSplitter.PlainSplitIsAware | apps/api/src/prisma/db-migrator.ts:43-51 | the plain split equals the literal-aware one if no semicolon is inside a literal and cuts more pieces otherwise |
| SqlSplitter.AcceptedSplitsExactly | apps/api/src/prisma/db-migrator.ts:43-117 | every accepted text splits into exactly the literal-aware statements, each with balanced quotes |
| SqlSplitter.LiteralRefusalsAreExact | apps/api/src/prisma/db-migrator.ts:81-100 | the guard refuses a text for its literals exactly when the plain split is wrong or a literal is open |
| SqlSplitter.StripsOnlyComments | apps/api/src/prisma/db-migrator.ts:44-47 | a text without comment lines is split as it stands |
| SqlSplitter.BlankedKeepsPositions | apps/api/src/prisma/db-migrator.ts:71-94 | the blanked copy keeps every position: the text outside literals, blanks and line ends inside |
| SqlSplitter.WordsSurvive | apps/api/src/prisma/db-migrator.ts:102-109 | a keyword is found in the blanked copy exactly where it stands in the text outside literals |
| SqlGuard.GuardMeans | apps/api/src/prisma/db-migrator.ts:63-117 | a migration is accepted if and only if, comment lines aside, every literal ends and holds no semicolon, and BEGIN, END and CREATE TRIGGER, also with TEMP or TEMPORARY and in whatever case, stand only inside literals; else the reason given is the first of these |
| SqlGuard.GuardIgnoresCase | apps/api/src/prisma/db-migrator.ts:102-116 | two migrations that differ only in the case of letters get the same answer, reason included |
| SqlSplitter.CommentLineMeans | apps/api/src/prisma/db-migrator.ts:44-47 | a comment line starts, white space aside, with two hyphens |
| SqlSplitter.KeptLinesMean | apps/api/src/prisma/db-migrator.ts:44-47 | comment lines go and all others stay, in order |
| SqlSplitter.StatementsMean | apps/api/src/prisma/db-migrator.ts:48-50 | each piece that is not all white space yields its trimmed text, in order |
| StringOps.JoinSplit | apps/api/src/prisma/db-migrator.ts:44-48 | joining undoes cutting, so stripping and splitting lose no other text |
| Migrator.MigratedIsStable | apps/api/src/prisma/db-migrator.ts:180-183 | a migrated database has nothing missing, and migrating it again changes nothing |
| Migrator.MigratedRowsDistinct | apps/api/src/prisma/db-migrator.ts:191-206 | no migration is recorded twice |
| Migrator.MissingInNameOrder | apps/api/src/prisma/db-migrator.ts:119-130 | pending migrations are applied in name order |
| Migrator.StatementsMean | apps/api/src/prisma/db-migrator.ts:199-211 | inside the transaction a statement and a table row wait for the commit, outside it they are committed at once; a commit saves what waits, a rollback drops it, both are refused outside |
| TransactionControl.ControlMeans | apps/api/src/prisma/db-migrator.ts:202-204 | a statement commits exactly if it begins, white space and comments aside, with COMMIT or END in whatever case, and rolls back exactly if it begins with ROLLBACK and names no savepoint |
| MigratorAtomicity.SoundIff | apps/api/src/prisma/db-migrator.ts:185-227 | in every reachable state the database is the old one or the completely migrated one, who works holds the write lock, success means migrated, and a change was made and reported by exactly one instance: if and only if no pending statement ends the transaction |
| MigratorAtomicity.AllOrNothingIff | apps/api/src/prisma/db-migrator.ts:185-227 | the database alone is always the old or the migrated one if and only if no pending statement ends the transaction or every attempt fails before it saves anything; otherwise some call fails and leaves part of its work |
| MigratorAtomicity.PartIsLeft | apps/api/src/prisma/db-migrator.ts:203-226 | the run that leaves part: work before the first such statement is saved by it, work after it statement by statement |
| MigratorGuardGap.CommitPassesTheGuard | apps/api/src/prisma/db-migrator.ts:102-117 | the guard accepts a file with a COMMIT, and migrating with it can fail and leave half of it applied |
| MigratorProtocol.AllOrNothing | apps/api/src/prisma/db-migrator.ts:185-227 | if no pending statement ends the transaction: however any number of instances interleave, the committed database is the old one or the completely migrated one, and a success implies the latter |
| MigratorProtocol.ExactlyOneApplies | apps/api/src/prisma/db-migrator.ts:189-211 | if no pending statement ends the transaction: a changed database was migrated by exactly one instance, which reports every missing migration |
| MigratorProtocol.FailureLeavesNothing | apps/api/src/prisma/db-migrator.ts:212-226 | if no pending statement ends the transaction: only a complete commit changes the database, from old to migrated |
| MigratorProtocol.RerunAppliesNothing | apps/api/src/prisma/db-migrator.ts:165-183 | on a migrated database an instance applies nothing, or stops for an unsafe or changed file |
| MigratorAtomicity.AloneMigrates | apps/api/src/prisma/db-migrator.ts:185-211 | an undisturbed instance applies all that is missing, reports it in name order and releases the lock |
| MigratorAtomicity.LateAppliesNothing | apps/api/src/prisma/db-migrator.ts:186-206 | an instance that waited while another one migrated passes over what is recorded and reports nothing |
| DbMigrator.AcquireWriteLock | apps/api/src/prisma/db-migrator.ts:141-153 | the retry loop gets the lock exactly if some try grants it after nothing but busy answers |
| DbMigrator.MigratorRun.ReadPending | apps/api/src/prisma/db-migrator.ts:156-183 | the loops decide unsafe, drift, nothing to do or what is pending, as the protocol's first step |
| DbMigrator.MigratorRun.ApplyPending | apps/api/src/prisma/db-migrator.ts:190-226 | with nothing else running: the nested loops execute what is missing, each statement on the connection as the ones before it leave it, up to a refusal; if none ends the transaction, they apply exactly what is missing or leave the database as it was |
| SettingsCache.BoundedStaleness | apps/api/src/idp-settings/utils/idp-settings-cache.util.ts:43-59 | in every run a row served from the cache was the stored row at some moment less than a TTL ago |
| SettingsCache.StaleAfterInvalidation | apps/api/src/idp-settings/utils/idp-settings-cache.util.ts:56-64 | for every TTL a run that serves a replaced row TTL - 1 after it was invalidated |
| SettingsCache.CurrentIffNothingStale | apps/api/src/idp-settings/utils/idp-settings-cache.util.ts:43-64 | until the next write only the stored row is served if and only if neither cache nor a read in flight holds a replaced row that could still be served |
| SettingsCache.InvalidationSuffices | apps/api/src/idp-settings/utils/idp-settings-cache.util.ts:61-64 | with no read in flight across the write, everything served after an invalidation is current |
| SettingsCache.Cache.Lookup | apps/api/src/idp-settings/utils/idp-settings-cache.util.ts:47-56 | the first half of a read on the mutable cache: a protocol step, and a hit serves a row that was stored less than a TTL ago |
| SettingsCache.Cache.Fill | apps/api/src/idp-settings/utils/idp-settings-cache.util.ts:56-58 | the second half, after the await: a protocol step that stores what was read with the expiry of the first half |
| SettingsCache.Cache.Get | apps/api/src/idp-settings/utils/idp-settings-cache.util.ts:43-59 | a whole undisturbed read: bypass, hit and miss |
| SettingsCache.Cache.Invalidate | apps/api/src/idp-settings/utils/idp-settings-cache.util.ts:62-64 | the invalidation step of the protocol on the mutable cache |
| IpAddress.Ipv4ToInt | packages/shared/src/proxy.ts:141-158 | the shift-and-or loop computes the place value of four octets, or nothing |
| IpAddress.Ipv6ToInt | packages/shared/src/proxy.ts:160-191 | the expansion and the shift-and-or loop compute the place value of eight groups, or nothing |
| IpAddress.PartsMean | packages/shared/src/proxy.ts:148-155 | an octet is one to three decimal digits, a group one to four lower-case hexadecimal ones |
| IpAddress.NumbersMean | packages/shared/src/proxy.ts:150-189 | the number that an octet or a group stands for, digit by digit |
| IpGrammar.SpellingsAgree | packages/shared/src/proxy.ts:160-191 | every spelling of eight groups, in full or with one zero run compressed, has the same value |
| IpGrammar.ReadsExactlySpellings | packages/shared/src/proxy.ts:160-191 | the reader accepts a text with a value if and only if it spells eight groups of that value |
| BitArithmetic.AndIsBitwise | packages/shared/src/proxy.ts:206-207 | the conjunction of integers of any sign has, in two's complement, exactly the bits that both have |
| BitArithmetic.OrIsBitwise | packages/shared/src/proxy.ts:141-191 | the disjunction has exactly the bits that one of them has |
| BitArithmetic.MaskedEqualIff | packages/shared/src/proxy.ts:206-207 | equality under the two's-complement mask is equality of the quotients by the power of two |
| Cidr.FamiliesAreDisjoint | packages/shared/src/proxy.ts:200-219 | no text is a literal of both families, so the order of the two tests does not matter |
| Cidr.InCidrMeans | packages/shared/src/proxy.ts:194-220 | a host is in a range exactly when both are literals of one family that agree on their top prefix bits |
| Cidr.RangeIsEquivalence | packages/shared/src/proxy.ts:194-220 | for a fixed prefix being in range is reflexive on valid literals, symmetric and transitive |
| Cidr.ShorterPrefixContains | packages/shared/src/proxy.ts:194-220 | a host in a range is in the range of every shorter prefix |
| ProxyHosts.ParseNoProxyHosts | packages/shared/src/proxy.ts:77-91 | the loop yields the lower-cased tokens in order of first occurrence, none twice |
| ProxyHosts.TokensAreDelimited | packages/shared/src/proxy.ts:77-91 | the tokens are exactly the texts that stand between separators |
| ProxyHosts.IpMatchesCidrList | packages/shared/src/proxy.ts:227-246 | the loop finds a match if and only if some token is the address or a range around it |
| ProxyHosts.HostBypassesProxy | packages/shared/src/proxy.ts:105-137 | the loop answers yes exactly for the built-in hosts and for hosts some token exempts |
| ProxyHosts.DomainSuffix | packages/shared/src/proxy.ts:129-131 | a leading-dot token exempts exactly the domain and the hosts under it |
| CsvExport.ExportReadsBack | apps/api/src/audit/services/audit-query.service.ts:99-118 | a quoted-field reader gets every cell of every row back as neutralised, whatever quotes, commas and line ends it holds |
| CsvExport.NeverAFormula | apps/api/src/audit/services/audit-query.service.ts:127-130 | no exported cell begins like a formula |
| CsvExport.NeutralisedCollision | apps/api/src/audit/services/audit-query.service.ts:127-130 | two values become the same cell exactly when one is the other's formula with a quote in front |
| RunPool.TakenItemsAreAccountedFor | apps/api/src/common/utils/run-pool.util.ts:2-16 | in every state an item has been taken exactly if it is completed or with one runner, never both and never two |
| RunPool.TakesAreInOrder | apps/api/src/common/utils/run-pool.util.ts:9-11 | items are taken in list order, each once |
| RunPool.AtMostConcurrencyInFlight | apps/api/src/common/utils/run-pool.util.ts:8-14 | at most `concurrency` items are in flight, all different |
| RunPool.SuccessMeansAllDone | apps/api/src/common/utils/run-pool.util.ts:7-15 | when the pool succeeds every item was completed exactly once, if and only if concurrency is at least 1 or the list is empty |
| RunPool.NeverStuck | apps/api/src/common/utils/run-pool.util.ts:7-15 | a run can go on if and only if some runner has neither finished nor failed |
| RunPool.SurvivorTakesTheRest | apps/api/src/common/utils/run-pool.util.ts:8-14 | a throwing worker stops one runner; while one survives every other item is still completed |
| RunPool.RunsAreBounded | apps/api/src/common/utils/run-pool.util.ts:8-15 | every run ends within two steps an item and one a runner |

## Left out

- XML, SOAP, signatures, encryption, compression, password hashing and key generation: foreign calls, here parameters or abstract values.
- HTTP controllers, guards, DTO checks, audit events, notifier payloads, tarpit delays and logging.
- Cron and date parsing, environment values, and clocks that run backwards; each operation takes one clock reading.
- Crash recovery of in-flight deliveries: the source has none, so the process is taken to stay up and statements to succeed.
- Columns that steer nothing: lastError, lastAttemptAt, lastLockedAt, lastBackchannelLogoutStatus, updatedAt of identity rows.
- Cascades from deleting a service provider or a user to queue rows and sessions; the operator probe of an endpoint.
- The in-flight cap under overlapping passes, and the order of sends among concurrent deliveries of one pass.
- The SLO and admin-create counters (copies of the limiter), paging, listing and status queries, and the replay log.
- The external identity store and sync scheduling: their statements are not part of this model.
- The soft cap of 50,000 limiter keys is not in the source's limiter; that of the ban map is modelled.
- E-mail normalisation and credential-change resets of the lockout.
- SQL text: comments after code on a line, block comments and double-quoted names are not recognised by the source; a line of a literal that starts with two hyphens is stripped by it. The model does the same, and states the splitter's exactness for the stripped text.
- Lower-casing and LIKE folding of letters outside ASCII.
- JavaScript's `Number()` on a prefix is a parameter, so any reading of it is covered.
- What SQLite does with a statement is taken to be: COMMIT and END commit, ROLLBACK rolls back unless it names a savepoint, both fail outside a transaction, and any other statement writes or is refused. Savepoints opened outside a transaction are not modelled.
- DbMigrator.AcquireWriteLock: the pause between tries is not modelled, only the number of waits.
- IdentityRepository.Repository.ImportSnapshot: the counts of updated rows are not modelled; for an import that stops at a constraint error only the inserted counts and the insert-missing guarantee are stated.
- LogoutPropagationService.LogoutPropagation.RunFirstPass: nothing else touches the queue while the loop runs; the bounds for interleaved runs are those of LogoutDrain.
- IdentityAdmin: the count that only tells a missing group or role from a foreign one is part of giving a call up.
