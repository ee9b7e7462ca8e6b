# Jano: a verified model of its protocols

Jano is a zero-knowledge password vault. This Dafny project models the stateful protocols of its server
(`apps/api`) and of its desktop engine (`apps/desktop`) and proves what they keep over whole runs. It needs
Dafny 4.11; `dafny verify dfyconfig.toml` checks all of it.

Each component has two layers. A decision layer of functions on values says what one call computes; the
theorems about runs are about these functions. A code layer of classes with mutable fields (or of methods with
loops, where the source has them) follows the TypeScript statement by statement, and each method's `ensures`
equates its new state and result with the decision function. What a decision function answers and stores is in
turn stated without it, over whole runs: from the history of operations, or in terms of the bytes and tables alone.

| files | component |
|---|---|
| `SyncService`, `VaultItems`, `VaultKeys` | the reconciliation gate, conflict forks, and their stores |
| `SyncRuns`, `SyncHistory`, `SyncCompetition`, `SyncTables`, `SyncGate`, `SyncReplies` | runs of many devices and users: no lost update, competing edits, conservation, isolation, fork forest, gate, answers |
| `RateLimit`, `RateLimitBounds`, `RateLimitHistory`, `RateLimitStore` | the fixed-window limiter with exponential backoff |
| `Accounts`, `AccountServices`, `AccountRuns` | registration, login, and the server side of rotation |
| `VaultCrypto`, `KeyManagement`, `VaultRuns` | KEK/DEK buffers and the life of a vault |
| `Rotation`, `RotationRuns`, `RotationReplies` | offline rotation across client, network and server |
| `EngineWorker`, `WorkerRuns`, `EngineClient`, `EngineRuns` | the worker and its RPC |
| `SqlPatch` | the dynamic UPDATE statement |

## Assumptions

- Each service call, each worker message and each rotation attempt is one step; the code itself states this kind
  of assumption (`apps/api/src/vault/vault.service.ts:12-13`) and has no compare-and-swap.
- Random ids are unused when drawn, nonces have 12 bytes, challenges 32. All random values, times and network
  outcomes are arguments.
- The limit and window of a rate-limited key are fixed, the window is at least 1 ms, and the clock never goes
  back. The limit may be any integer: `Admits` is the limit, or 1 if the limit is smaller.
- Cryptography is a record of functions with the laws in `VaultCrypto.Lawful` and, where an exchange has to
  succeed, `RotationRuns.Interoperates`; lemmas show that they have instances. AES-GCM (NIST SP 800-38D), Argon2id
  (section 3 of RFC 9106), HMAC (section 2 of RFC 2104) and OPAQUE (RFC 9807) are not part of this model. The law
  that a wrong key never opens a seal idealises the authentication tag.
- That an OPAQUE record belongs to one password only is nowhere assumed. `RotationRuns.SafetyIsExact` holds for any
  OPAQUE; a theorem that needs two passwords told apart says so of the records it mentions
  (`RotationRuns.Registrable`, `RotationRuns.TellsPasswordsApart`).
- One device rotates; beginning a rotation and persisting its wrapping is one step.

## Where the code does not do what its text says

Each of these is proved, with the exact condition:

- A client that claims a version ahead of the item overwrites edits it never saw, and lets others do so
  (`SyncCompetition.AcceptedPushClosesExactly`, `SyncHistory.CompetingPairIsExact`).
- A rate limit below 1 still admits the check that opens a window (`RateLimitBounds.LimitIsExact`).
- The two-phase rotation is not safe against a finish request that outlives its attempt: once the slot is empty,
  one for an older password can arrive (`RotationRuns.LateRequestsAreExact`), and if rotations go on regardless,
  one for the present password is enough (`RotationRuns.PromptContinuationsAreExact`,
  `RotationRuns.LateRequestUndoesRotation`).
- `beginOfflineRotation` on a locked vault throws only after it has overwritten the pending slot, which loses the
  password the slot held and later lets the wrong one be registered (`RotationRuns.BeginIsExact`,
  `RotationRuns.LockedBeginLosesRotation`).
- The worker's `unlockWithPassword` leaves the KEK it derived unzeroed when the wrapping does not open
  (`EngineWorker.Worker.OnMessage`, `KeyManagement.KeyManager.UnlockWith`).
- `beginOfflineRotation` never zeroes the copy of the new KEK that seals the payload, nor the KEK itself when the
  re-wrap fails (`Rotation.BeginOfflineRotation`).
- `loadDek` with the resident buffer, and `rewrapUnder` with it as the new KEK, zero the DEK
  (`KeyManagement.KeyManager.LoadDek`, `KeyManagement.KeyManager.RewrapUnder`).
- `createNewVault` in the worker drops the previous manager without zeroing its DEK (`EngineWorker.Worker.OnMessage`).
- A payload that cannot be posted leaves its id pending although its promise is settled, and a call after
  `terminate` hangs (`EngineRuns.CallsAreCorrelated`, `EngineRuns.CallAfterTerminateHangs`).
- A patch property that is present but `undefined` erases the field in memory and leaves it alone in SQL
  (`SqlPatch.SqlMeansSpread`).

Comments in the code call conflict forking "section 14" and rotation "section 13"; in `docs/ARCHITECTURE-01.md`
they are sections 13 and 12.

## Model

| member | source | states |
|---|---|---|
| `SyncHistory.NoLostUpdate` | apps/api/src/sync/sync.service.ts:88-115 | over every run, each accepted write is still what its item holds, or version v+1 was written later by a push that had seen at least v (or by a direct vault write) |
| `SyncHistory.CompetingEditsFork` | apps/api/src/sync/sync.service.ts:101-114 | in every run, of two accepted pushes from one base version of an item the later becomes a fork if the earlier forked or did not claim a version ahead, whatever any other client claims |
| `SyncCompetition.AcceptedPushClosesExactly` | apps/api/src/sync/sync.service.ts:88-115 | after any run, for the next accepted push of an existing item: all later edits from the version it claims fork, in every continuation and for all clients, if and only if that version is not ahead of the item the push finds |
| `SyncCompetition.FirstCompetitorDecides` | apps/api/src/sync/sync.service.ts:101-114 | in every run, once a competing push is accepted, all later ones from its base fork in every continuation if and only if that one push did not claim a version ahead |
| `SyncCompetition.BaseIsClosedExactly` | apps/api/src/sync/sync.service.ts:101-114 | in every run, no continuation overwrites an item from a base version if and only if the item has moved past it |
| `SyncHistory.OverwritesStayBehindTheirBase` | apps/api/src/sync/sync.service.ts:101-114 | in every run, an overwrite lands at most right after the version its client claims |
| `SyncHistory.CompetingPairIsExact` | apps/api/src/sync/sync.service.ts:101-114 | of two successive pushes from the same base version the second forks if and only if the base is not ahead of the item; otherwise both overwrite and nothing of the first remains |
| `SyncHistory.ForksAreFinal` | apps/api/src/sync/sync.service.ts:101-107 | once a push from a base version had to fork, no later push from that base overwrites, honest or not |
| `SyncHistory.HonestOverwrites` | apps/api/src/sync/sync.service.ts:101-114 | on any stores, an accepted overwrite lands right after the version its client claims exactly when that version was not ahead of the item |
| `SyncHistory.UnversionedPushForks` | apps/api/src/sync/sync.service.ts:101-107 | a push that names an existing item but no version it saw always forks, with its exact content, and leaves the original as it was |
| `SyncHistory.RunKeepsLog` | apps/api/src/sync/sync.service.ts:88-115 | invariant of every run: versions are at least 1, each item's accepted writes have strictly increasing versions, and each is stored or superseded |
| `SyncTables.VersionsCountWrites` | apps/api/src/persistence/in-memory/in-memory-vault-items.repository.ts:9-62 | conservation: for every user the versions of their items add up to the number of accepted writes, pushes and vault writes mixed |
| `SyncTables.RunGrows` | apps/api/src/persistence/in-memory/in-memory-vault-items.repository.ts:9-62 | no item disappears or moves, versions never decrease, owner and fork parent never change |
| `SyncTables.UsersAreIsolated` | apps/api/src/persistence/in-memory/in-memory-vault-items.repository.ts:22-43 | no operation of one user changes what another user can look up or list |
| `SyncTables.ForksFormAForest` | apps/api/src/persistence/in-memory/in-memory-vault-items.repository.ts:45-62 | in every run each fork points at an item of the same user created strictly earlier |
| `SyncTables.EveryForkHasARoot` | apps/api/src/persistence/in-memory/in-memory-vault-items.repository.ts:45-62 | following fork parents from any item ends at an original of the same user, created no later |
| `SyncGate.PushGate` | apps/api/src/sync/sync.service.ts:55-115 | a push is accepted exactly when its key version is that of the user's latest master upsert and its target is absent or the user's own; a refused push changes only the event log, and each error has its exact cause |
| `SyncGate.PushReplyIsStored` | apps/api/src/sync/sync.service.ts:88-115 | the reply to an accepted push is the record now stored, with the content sent, and reports a conflict exactly when the write did not land on its target |
| `SyncReplies.PushToItemIsExact` | apps/api/src/sync/sync.service.ts:97-114 | after any run, an accepted push that names an item: a fork of it with a new id if its version is past the one the client has seen (0 if none is sent), the item left as it was; otherwise its next version; with exactly the content sent, and nothing else changes |
| `SyncReplies.PushOfNewItemIsExact` | apps/api/src/sync/sync.service.ts:91-94 | after any run, an accepted push that names no item, or the empty id, makes a new item without a parent, and changes nothing else |
| `SyncReplies.VaultUpdateIsExact` | apps/api/src/vault/vault.service.ts:33-46 | after any run, accepted exactly for the owner of the item; then it is the next version with the content sent, and all that changes; refused, it changes nothing |
| `SyncGate.PullGate` | apps/api/src/sync/sync.service.ts:126-130 | a pull is answered exactly when reconciled, and then with exactly the user's items; each error has its exact cause |
| `SyncGate.PullListsOnce` | apps/api/src/persistence/in-memory/in-memory-vault-items.repository.ts:22-24 | a pull lists no item twice, and lists them in the order of their creation |
| `SyncGate.EveryAttemptIsLogged` | apps/api/src/sync/sync.service.ts:60-60 | the event log is exactly the sequence of push and pull attempts, accepted or refused |
| `SyncGate.StoredMasterIsLatest` | apps/api/src/sync/sync.service.ts:62-69 | the key version the gate compares with is that of the user's latest master upsert |
| `SyncGate.StoredKeyIsLatest` | apps/api/src/persistence/in-memory/in-memory-vault-keys.repository.ts:13-38 | in every run the record read for a user and purpose is exactly the one stored last, under the row id of the first |
| `SyncGate.RecoveryUpsertsCommute` | apps/api/src/sync/sync.service.ts:55-75 | recovery upserts commute with every push and pull, in state and in reply |
| `VaultKeys.KeyIsInjective` | apps/api/src/persistence/in-memory/in-memory-vault-keys.repository.ts:9-11 | the composed key determines user and purpose, for all user ids |
| `VaultKeys.UpsertIsLocal` | apps/api/src/persistence/in-memory/in-memory-vault-keys.repository.ts:13-38 | what an upsert stores, in full, is read back by its own user and purpose, keeps the row id, and is invisible to every other |
| `VaultKeys.InMemoryVaultKeysRepository.Store` | apps/api/src/persistence/in-memory/in-memory-vault-keys.repository.ts:13-31 | the table after an upsert, and the record read back |
| `VaultKeys.InMemoryVaultKeysRepository.Find` | apps/api/src/persistence/in-memory/in-memory-vault-keys.repository.ts:33-38 | lookup by user and purpose |
| `VaultItems.ListIsExact` | apps/api/src/persistence/in-memory/in-memory-vault-items.repository.ts:22-24 | the list of a user holds all of the user's items and no others |
| `VaultItems.ListKeepsOrder` | apps/api/src/persistence/in-memory/in-memory-vault-items.repository.ts:22-24 | the list of a user is in the order of creation |
| `VaultItems.InMemoryVaultItemsRepository.Create` | apps/api/src/persistence/in-memory/in-memory-vault-items.repository.ts:9-20 | a new record at version 1 under its own id, everything else unchanged |
| `VaultItems.InMemoryVaultItemsRepository.CreateFork` | apps/api/src/persistence/in-memory/in-memory-vault-items.repository.ts:45-62 | a new record at version 1 pointing at the original, which is unchanged |
| `VaultItems.InMemoryVaultItemsRepository.Update` | apps/api/src/persistence/in-memory/in-memory-vault-items.repository.ts:31-43 | the owner's record merged with any selection of patched fields; for anyone else an error and no change |
| `VaultItems.InMemoryVaultItemsRepository.FindById` | apps/api/src/persistence/in-memory/in-memory-vault-items.repository.ts:26-29 | the record, for its owner only |
| `VaultItems.InMemoryVaultItemsRepository.List` | apps/api/src/persistence/in-memory/in-memory-vault-items.repository.ts:22-24 | the loop over all records yields the user's own, in order of creation |
| `Sync.InMemorySyncEventsRepository.Record` | apps/api/src/persistence/in-memory/in-memory-sync-events.repository.ts:9-19 | appends one event |
| `Sync.SyncService.AssertReconciled` | apps/api/src/sync/sync.service.ts:55-75 | records the attempt, then refuses or lets pass as the gate says |
| `Sync.SyncService.PushItem` | apps/api/src/sync/sync.service.ts:88-115 | refines the push decision the run theorems are about: new stores and result |
| `Sync.SyncService.PullItems` | apps/api/src/sync/sync.service.ts:126-130 | refines the pull decision |
| `Sync.VaultService.Create` | apps/api/src/vault/vault.service.ts:19-21 | creates without a gate |
| `Sync.VaultService.Update` | apps/api/src/vault/vault.service.ts:33-46 | bumps the version without a conflict check, for the owner only |
| `RateLimitBounds.Throughput` | apps/api/src/auth/rate-limit/rate-limit.store.ts:53-84 | over every run and interval of the given length at most limit * (ceil(length/windowMs) + 1) checks are allowed |
| `RateLimitBounds.ThroughputPerWindow` | apps/api/src/auth/rate-limit/rate-limit.store.ts:53-84 | never more than twice the limit in any stretch of windowMs |
| `RateLimitBounds.CeilDivIsCeiling` | apps/api/src/auth/rate-limit/rate-limit.store.ts:60-60 | the number of windows used in the bound is the rounded-up quotient |
| `RateLimitBounds.ExactRetryTime` | apps/api/src/auth/rate-limit/rate-limit.store.ts:56-80 | after a refusal with retryAfterMs r every check before now + r is refused and changes nothing, the first at or after it is allowed, and 1 <= r <= 1024 * windowMs |
| `RateLimitBounds.RunKeepsSound` | apps/api/src/auth/rate-limit/rate-limit.store.ts:73-81 | a lockout always ends at least two windows after its window began |
| `RateLimitHistory.CheckFollowsHistory` | apps/api/src/auth/rate-limit/rate-limit.store.ts:53-84 | each check decides and updates exactly as a limiter that remembers every window it opened |
| `RateLimitHistory.StreakIsHistory` | apps/api/src/auth/rate-limit/rate-limit.store.ts:60-75 | the stored streak is the number of consecutive windows, ending now, that each ended in a lockout |
| `RateLimitHistory.ConsecutiveViolations` | apps/api/src/auth/rate-limit/rate-limit.store.ts:60-81 | n consecutive violated windows allow exactly limit * n checks and lock out windowMs * (2^(n+1) - 2), linear beyond ten |
| `RateLimitHistory.AllowedMatchesHistory` | apps/api/src/auth/rate-limit/rate-limit.store.ts:53-84 | the windows account for every allowed check of a run |
| `RateLimit.BackoffBounds` | apps/api/src/auth/rate-limit/rate-limit.store.ts:76-79 | every lockout lasts between 2 and 1024 windows |
| `RateLimitBounds.LimitIsExact` | apps/api/src/auth/rate-limit/rate-limit.store.ts:62-74 | the bound with the configured limit holds for all clocks, runs and intervals if and only if the limit is at least 1 |
| `RateLimitStore.Store.Check` | apps/api/src/auth/rate-limit/rate-limit.store.ts:53-84 | the in-place update of one key's bucket object is the decision function; all other keys keep their buckets |
| `RateLimitStore.Store.Reset` | apps/api/src/auth/rate-limit/rate-limit.store.ts:86-88 | forgets exactly the one key |
| `RateLimitStore.KeysAreIndependent` | apps/api/src/auth/rate-limit/rate-limit.store.ts:50-88 | a key behaves as if the operations on other keys had not happened |
| `RateLimitStore.ResetForgets` | apps/api/src/auth/rate-limit/rate-limit.store.ts:86-88 | after a reset a key behaves as if never seen |
| `RateLimitStore.StoreThroughput` | apps/api/src/auth/rate-limit/rate-limit.store.ts:50-88 | the throughput bound for one key in any run over the whole store, times one plus the number of its resets |
| `RateLimitStore.AllowedAcrossResets` | apps/api/src/auth/rate-limit/rate-limit.store.ts:50-88 | from any store: what a key gets through before its first reset, plus at most one full bound for each reset |
| `RateLimitStore.BucketRecord.Count` | apps/api/src/auth/rate-limit/rate-limit.store.ts:73-83 | one more check in an open window updates the bucket's fields as the decision function says |
| `AccountRuns.RunKeepsAccounts` | apps/api/src/auth/auth.service.ts:47-87 | in every run: stored records are well-formed, hardened mode means a stored secret, email index and user table agree both ways, pending logins name the user of their email |
| `AccountRuns.RegistrationIsExact` | apps/api/src/auth/auth.service.ts:47-71 | a registration succeeds exactly for a well-formed record and an email nobody registered before; the reply names the new account, which holds what was given, and the email, and no other, finds it; each refusal has its exact cause and changes nothing |
| `AccountRuns.OwnerIsIndexed` | apps/api/src/persistence/in-memory/in-memory-users.repository.ts:16-33 | in every run the email index holds exactly the first well-formed registration of each email |
| `AccountRuns.LoginStartIsExact` | apps/api/src/auth/auth.service.ts:73-87 | after any run, a login start is answered exactly if somebody owns the email and OPAQUE answers for their record; the client gets ke2, the server keeps the other half for that email alone; each refusal has its exact cause and changes nothing |
| `AccountRuns.PendingLoginIsLatest` | apps/api/src/auth/auth.service.ts:85-99 | in every run the pending handshake of an email is the one begun last and not consumed since |
| `AccountRuns.LoginIsExact` | apps/api/src/auth/auth.service.ts:89-115 | a login finish issues a session exactly if the handshake begun last for the email is unconsumed and accepts the answer; it is consumed either way; the session is the owner's, on a new device; each refusal has its exact cause |
| `AccountRuns.SessionsNeedStarts` | apps/api/src/auth/auth.service.ts:73-115 | per email, issued sessions plus the pending login never exceed login starts |
| `AccountRuns.FinishIsExact` | apps/api/src/rotation/rotation.service.ts:95-151 | exactly when a rotate/finish succeeds, over every run; refused means nothing changed, accepted means only this record and this challenge did |
| `AccountRuns.FinishErrorsAreExact` | apps/api/src/rotation/rotation.service.ts:95-151 | after any run, each error of rotate/finish has its exact cause |
| `AccountRuns.StartIsExact` | apps/api/src/rotation/rotation.service.ts:68-93 | after any run, a rotate/start is answered exactly if the user exists and OPAQUE answers for their email; the reply carries that answer and, for an account with a continuity secret, the nonce drawn, which becomes the challenge of this device alone |
| `AccountRuns.ReplacementsNeedStarts` | apps/api/src/rotation/rotation.service.ts:83-150 | per device, replaced hardened records plus the pending challenge never exceed rotate/start calls |
| `AccountRuns.StoredChallengeIsLatest` | apps/api/src/rotation/rotation.service.ts:87-92 | in every run the stored challenge of a device is the nonce drawn for its last answered start on a hardened account, unless a correctly signed finish has consumed it |
| `AccountRuns.FinishIsIdempotent` | apps/api/src/rotation/rotation.service.ts:106-114 | after a success, any repeats with the same record among any rotate/start calls succeed and change no account |
| `Accounts.BytesEqual` | apps/api/src/rotation/rotation.service.ts:18-20 | true exactly for equal byte strings |
| `AccountServices.InMemoryUsersRepository.FindByEmail` | apps/api/src/persistence/in-memory/in-memory-users.repository.ts:16-19 | the user of the email, through the index |
| `AccountServices.InMemoryUsersRepository.FindById` | apps/api/src/persistence/in-memory/in-memory-users.repository.ts:21-23 | the user object of the id |
| `AccountServices.InMemoryUsersRepository.Create` | apps/api/src/persistence/in-memory/in-memory-users.repository.ts:25-33 | adds user and index entry together, or refuses a taken email and changes nothing |
| `AccountServices.InMemoryUsersRepository.ReplaceRegistrationRecord` | apps/api/src/persistence/in-memory/in-memory-users.repository.ts:35-41 | changes only the record of only this user, in place |
| `AccountServices.InMemoryDevicesRepository.Create` | apps/api/src/persistence/in-memory/in-memory-devices.repository.ts:13-19 | adds the device |
| `AccountServices.InMemoryDevicesRepository.SetPendingRotationChallenge` | apps/api/src/persistence/in-memory/in-memory-devices.repository.ts:30-32 | supersedes the device's challenge |
| `AccountServices.InMemoryDevicesRepository.GetPendingRotationChallenge` | apps/api/src/persistence/in-memory/in-memory-devices.repository.ts:34-36 | the device's challenge, if any |
| `AccountServices.InMemoryDevicesRepository.ClearPendingRotationChallenge` | apps/api/src/persistence/in-memory/in-memory-devices.repository.ts:38-40 | removes the device's challenge |
| `AccountServices.RotationService.RotateStart` | apps/api/src/rotation/rotation.service.ts:68-93 | refines the start decision on the real stores |
| `AccountServices.RotationService.RotateFinish` | apps/api/src/rotation/rotation.service.ts:95-151 | refines the finish decision on the real stores |
| `AccountServices.AuthService.RegisterFinish` | apps/api/src/auth/auth.service.ts:47-71 | refines the registration decision |
| `AccountServices.AuthService.LoginStart` | apps/api/src/auth/auth.service.ts:73-87 | refines the login-start decision |
| `AccountServices.AuthService.LoginFinish` | apps/api/src/auth/auth.service.ts:89-115 | refines the login-finish decision |
| `RotationRuns.RotationIsSafe` | apps/desktop/src/engine/rotation-state-machine.ts:61-135 | after any rotations, attempts, losses and crashes the latest password is in the slot (for the current key only) or registered; an empty slot means registered |
| `RotationRuns.PromptRotationIsSafe` | apps/desktop/src/engine/rotation-state-machine.ts:108-135 | the same with no assumption on late requests when the network delivers at once or loses |
| `RotationRuns.SafetyIsExact` | apps/desktop/src/engine/rotation-state-machine.ts:61-135 | from any state and for any OPAQUE, every orderly continuation (rotations included) is safe if and only if the slot is current, or the server is and neither a request under way nor any attempt on the slot can register what is no record of the latest password |
| `RotationRuns.LateRequestsAreExact` | apps/desktop/src/engine/rotation-state-machine.ts:117-135 | with an empty slot, every orderly continuation (rotations included) is safe if and only if the server is current and no acceptable finish request for an older password is under way |
| `RotationRuns.PromptContinuationsAreExact` | apps/desktop/src/engine/rotation-state-machine.ts:117-135 | with an empty slot, every continuation that delays nothing more, with rotations at any time, is safe if and only if the server is current and no acceptable finish request at all is under way (each of which must fail to belong to some password) |
| `RotationRuns.LateRequestUndoesRotation` | apps/desktop/src/engine/rotation-state-machine.ts:61-135 | from registration: a request that outlives its attempt undoes the next, completed rotation |
| `RotationRuns.BeginIsExact` | apps/desktop/src/engine/rotation-state-machine.ts:71-78 | what follows a begin is safe for good if and only if the vault was unlocked, or password and key are unchanged, or the server is current with nothing stale under way and either the password is unchanged or the account is hardened (given that a changed password can be registered as a record not of the old one) |
| `RotationRuns.LockedBeginLosesRotation` | apps/desktop/src/engine/rotation-state-machine.ts:71-78 | from registration: a begin on the locked vault loses the rotation before it |
| `RotationRuns.LockedBeginBlocksAttempts` | apps/desktop/src/engine/rotation-state-machine.ts:125-131 | after a locked begin under another key, no attempt with the vault's own key changes anything |
| `RotationRuns.OneCleanAttemptCompletes` | apps/desktop/src/engine/rotation-state-machine.ts:117-135 | after any run, one undisturbed attempt empties the slot and makes the server current |
| `RotationRuns.HardenedAttemptsChangeNothing` | apps/desktop/src/engine/rotation-http-client.ts:89-105 | on a hardened account no attempt changes the account or the slot |
| `RotationRuns.VaultSurvivesRotations` | apps/desktop/src/engine/rotation-state-machine.ts:76-78 | through the same runs both wrappings keep opening to the vault's one DEK |
| `RotationRuns.SomeOpaqueInteroperates` | apps/api/src/auth/opaque/fake-opaque-server-provider.ts:20-58 | an OPAQUE exists that meets all conditions above: an honest exchange succeeds, and no record belongs to two passwords |
| `RotationReplies.BeginSeals` | apps/desktop/src/engine/rotation-state-machine.ts:61-79 | after a begin the slot seals password and epoch, and the new wrapping, with its purpose and version, seals the DEK, both under the new key alone and with the nonces drawn; nothing else changes, and on a locked vault only the slot |
| `RotationReplies.IdleAttempt` | apps/desktop/src/engine/rotation-state-machine.ts:120-128 | an attempt without a slot, or with a key that does not open it, changes nothing, and says which |
| `RotationReplies.AttemptIsExact` | apps/desktop/src/engine/rotation-state-machine.ts:117-135 | from any state and under every network fault: when an attempt on a readable slot succeeds, what it leaves in the slot and on the server, and which finish request stays under way |
| `RotationReplies.ExchangeIsExact` | apps/desktop/src/engine/rotation-http-client.ts:79-115 | the exchange with the server under every network fault: when it succeeds, what it leaves on the server and under way |
| `RotationReplies.AttemptErrorsAreExact` | apps/desktop/src/engine/rotation-http-client.ts:79-115 | each error of such an attempt has its exact cause |
| `Rotation.BeginOfflineRotation` | apps/desktop/src/engine/rotation-state-machine.ts:61-79 | the slot saved, the wrapping with the version asked for, the manager untouched, and what the two KEK buffers hold afterwards, on success and on failure |
| `Rotation.CompleteOfflineRotation` | apps/desktop/src/engine/rotation-state-machine.ts:117-135 | refines one completion attempt: slot, server, result and what the network keeps |
| `Rotation.HttpOpaqueRotationClient.ReregisterPassword` | apps/desktop/src/engine/rotation-http-client.ts:79-115 | refines start, refusal of hardened accounts, finish, against the real rotation service under every network fault |
| `Rotation.PendingRotationStore.Save` | apps/desktop/src/engine/rotation-state-machine.ts:27-31 | the slot holds the new record |
| `Rotation.PendingRotationStore.Load` | apps/desktop/src/engine/rotation-state-machine.ts:27-31 | reads the slot |
| `Rotation.PendingRotationStore.Clear` | apps/desktop/src/engine/rotation-state-machine.ts:27-31 | empties the slot |
| `VaultRuns.VaultStaysReadable` | apps/desktop/src/engine/registration.ts:50-82 | over any run the current master and recovery wrappings open to the one DEK, wrong keys do not, and every ciphertext decrypts to its plaintext |
| `VaultRuns.RunKeepsReadable` | apps/desktop/src/engine/key-manager.ts:22-104 | the invariant behind it, from any readable vault |
| `VaultRuns.RewrapIsExact` | apps/desktop/src/engine/key-manager.ts:62-71 | re-wrapping fails exactly when locked or with a key AES does not have, each with its own error; otherwise nonce and encrypted DEK with the purpose and version asked for |
| `VaultRuns.RewrapOpens` | apps/desktop/src/engine/key-manager.ts:62-71 | a new wrapping starts with its nonce, carries its purpose and version, and opens to the DEK under the new key and no other |
| `VaultRuns.WrappingsAreLabelled` | apps/desktop/src/engine/key-manager.ts:62-71 | in every run each wrapping carries its purpose and the version of the last re-wrap of an unlocked vault (1 if there was none) |
| `VaultRuns.ItemsOnlyGrow` | apps/desktop/src/engine/key-manager.ts:74-77 | nothing encrypted is dropped |
| `VaultCrypto.UnpackAfterPack` | apps/desktop/src/engine/aes-gcm.ts:53-65 | unpacking undoes packing if and only if the nonce has 12 bytes (or is shorter with nothing behind it) |
| `VaultCrypto.PackAfterUnpack` | apps/desktop/src/engine/aes-gcm.ts:53-65 | packing the parts of any buffer gives it back, short buffers included; its first 12 bytes are the nonce |
| `VaultCrypto.SealedOpens` | apps/desktop/src/engine/aes-gcm.ts:23-65 | seal and pack: the nonce, then what decrypts to the plaintext under the same key and to nothing under another |
| `VaultCrypto.OpeningIsExact` | apps/desktop/src/engine/aes-gcm.ts:35-65 | unpacking and opening a buffer decrypts all behind the first 12 bytes with those as nonce, for AES keys; any other key fails |
| `VaultCrypto.ToyIsLawful` | apps/desktop/src/engine/aes-gcm.ts:23-47 | the laws assumed of the cryptography have an instance |
| `KeyManagement.KeyManager.UnlockWith` | apps/desktop/src/engine/key-manager.ts:35-40 | on success the opened DEK is resident and the KEK and the replaced buffer are zeroed; on failure nothing changes |
| `KeyManagement.KeyManager.LoadDek` | apps/desktop/src/engine/key-manager.ts:50-52 | takes over the buffer and zeroes the one it replaces; the key survives unless both are the same buffer |
| `KeyManagement.KeyManager.SetDek` | apps/desktop/src/engine/key-manager.ts:93-96 | as above, and keeps every buffer used up zeroed and apart from the resident one |
| `KeyManagement.KeyManager.RewrapUnder` | apps/desktop/src/engine/key-manager.ts:62-71 | the wrapping with the purpose and version asked for, the KEK zeroed on success only, and the DEK intact unless its own buffer is passed |
| `KeyManagement.KeyManager.EncryptItem` | apps/desktop/src/engine/key-manager.ts:74-77 | refines encryption under the resident DEK |
| `KeyManagement.KeyManager.DecryptItem` | apps/desktop/src/engine/key-manager.ts:80-83 | refines decryption under the resident DEK |
| `KeyManagement.KeyManager.Lock` | apps/desktop/src/engine/key-manager.ts:86-91 | zeroes and drops the DEK, keeps all used-up buffers zeroed |
| `KeyManagement.Zeroize` | apps/desktop/src/engine/key-manager.ts:107-109 | every byte becomes zero |
| `KeyManagement.PackSealed` | apps/desktop/src/engine/aes-gcm.ts:53-58 | writes nonce and ciphertext side by side into a fresh buffer |
| `KeyManagement.CreateNewVault` | apps/desktop/src/engine/registration.ts:50-82 | a master and a recovery wrapping, version 1, of the one DEK the manager holds; both KEK buffers zeroed, neither of them the DEK |
| `EngineRuns.CallsAreCorrelated` | apps/desktop/src/worker/engine-client.ts:47-108 | under every interleaving a call settles only with the worker's result for its own request, at most once; the pending ids are exactly the unsettled and the unpostable ones, all issued |
| `EngineRuns.CallsRoundTrip` | apps/desktop/src/worker/engine.worker.ts:70-80 | under every interleaving, through locks, unlocks and other vaults: a call to decrypt a ciphertext that a call to encrypt resolved with resolves, if at all, with the plaintext encrypted |
| `EngineRuns.CallCompletes` | apps/desktop/src/worker/engine-client.ts:47-101 | from every reachable state a call that is posted, handled and answered settles with what the worker answers after all it has handled |
| `EngineRuns.DeliveryIsExact` | apps/desktop/src/worker/engine-client.ts:92-101 | an answer settles exactly its own call, unless that was settled before, and no other; success resolves, failure rejects |
| `EngineRuns.IssueIsExact` | apps/desktop/src/worker/engine-client.ts:47-54 | a posted call waits under the next id; one that cannot be posted is rejected at once and reaches nobody |
| `EngineRuns.AnswersAreAWorkerRun` | apps/desktop/src/worker/engine.worker.ts:91-105 | the answers posted are those of one worker run, in the order the messages were taken |
| `EngineRuns.RejectAllSettlesEverything` | apps/desktop/src/worker/engine-client.ts:87-108 | a crash or termination rejects every unsettled call with its own reason, leaves settled ones alone and empties the pending table |
| `EngineRuns.SettlementIsFinal` | apps/desktop/src/worker/engine-client.ts:92-101 | a settled call never changes |
| `EngineRuns.CallAfterTerminateHangs` | apps/desktop/src/worker/engine-client.ts:87-90 | a call made after termination is settled if and only if a later crash or termination sweeps it up |
| `EngineRuns.RunFromKeepsInv` | apps/desktop/src/worker/engine-client.ts:47-108 | the invariant over client, channels and worker behind these results |
| `EngineClient.Engine.CallOp` | apps/desktop/src/worker/engine-client.ts:47-54 | next id, one new promise, one message; if posting throws, a rejected promise whose id stays pending |
| `EngineClient.Engine.OnResponse` | apps/desktop/src/worker/engine-client.ts:92-101 | settles and forgets exactly the call of the response's id, ignores unknown ids |
| `EngineClient.Engine.RejectPending` | apps/desktop/src/worker/engine-client.ts:103-108 | rejects every pending promise, no other, and clears the table |
| `EngineClient.Engine.RejectEach` | apps/desktop/src/worker/engine-client.ts:103-106 | the loop: each pending promise gets one rejection, no other promise is touched |
| `EngineWorker.Worker.OnMessage` | apps/desktop/src/worker/engine.worker.ts:41-105 | one reply, with the request's id and its result; dropped DEK buffers are zeroed, except the one createNewVault abandons; derived KEK buffers are zeroed unless the wrapping to unlock does not open |
| `EngineWorker.Worker.SwapManager` | apps/desktop/src/worker/engine.worker.ts:44-56 | the new vault's manager replaces the active one; the answer holds its salts, secret and wrappings; both KEK buffers zeroed |
| `WorkerRuns.ResidentIsHistory` | apps/desktop/src/worker/engine.worker.ts:42-82 | in every run the resident key is that of the vault created or unlocked last, unless it was locked since; failed unlocks count for nothing |
| `WorkerRuns.CreateVaultAnswer` | apps/desktop/src/worker/engine.worker.ts:44-56 | the answer holds the salts and secret drawn, a master and a recovery wrapping of the key drawn, each under its own KEK alone |
| `WorkerRuns.UnlockAndLockAnswers` | apps/desktop/src/worker/engine.worker.ts:57-68 | an unlock succeeds exactly if the wrapping decrypts under the derived key; a lock always does |
| `WorkerRuns.EncryptAnswer` | apps/desktop/src/worker/engine.worker.ts:70-74 | after any run, answered exactly if an AES key is resident; the answer seals the plaintext under that key alone with the nonce drawn; each error has its exact cause |
| `WorkerRuns.DecryptAnswer` | apps/desktop/src/worker/engine.worker.ts:76-80 | after any run, the answer is what the buffer decrypts to under the resident key, or the exact cause of failure |
| `WorkerRuns.VaultReopens` | apps/desktop/src/worker/engine.worker.ts:57-63 | whatever happened before, a vault's password and wrapping make its key resident again; a password deriving another key fails and changes nothing |
| `WorkerRuns.ItemsOutliveLocks` | apps/desktop/src/worker/engine.worker.ts:42-82 | an item encrypted in an open vault decrypts to what was put in after any locks, other vaults and failed unlocks, once the vault is unlocked again |
| `WorkerRuns.NeverMisread` | apps/desktop/src/worker/engine.worker.ts:70-80 | a ciphertext the worker made is never decrypted to anything but its plaintext, whatever 32-byte key is resident then |
| `WorkerRuns.LockedAnswersNothing` | apps/desktop/src/worker/engine.worker.ts:65-80 | after a lock neither encryption nor decryption is answered |
| `SqlPatch.BuildUpdate` | apps/api/src/persistence/postgres/postgres-vault-items.repository.ts:72-96 | every given column is assigned once, from a placeholder holding its own value, no other column is, and the last two placeholders are id and user |
| `SqlPatch.ExecutionPatches` | apps/api/src/persistence/postgres/postgres-vault-items.repository.ts:98-105 | executing such a statement replaces the given columns of the row of that id and user, and of no other row |
| `SqlPatch.SqlMeansSpread` | apps/api/src/persistence/in-memory/in-memory-vault-items.repository.ts:36-40 | the statement equals the in-memory merge if and only if no property is present but undefined over a field that holds something |
| `SqlPatch.StatementAgreesWithUpdate` | apps/api/src/persistence/in-memory/in-memory-vault-items.repository.ts:31-43 | the row after the statement is the record the in-memory update stores, exactly unless the patch takes back a fork parent |
| `SqlPatch.StatementFindsRow` | apps/api/src/persistence/postgres/postgres-vault-items.repository.ts:98-106 | the statement matches a row exactly if the user has the item, so it fails where the in-memory update does |
| `SqlPatch.PushField` | apps/api/src/persistence/postgres/postgres-vault-items.repository.ts:76-91 | keeps placeholder numbers and values in step |
| `SqlPatch.PushFields` | apps/api/src/persistence/postgres/postgres-vault-items.repository.ts:72-91 | the four optional columns, in step |

## Left out

- Sync.SyncService.PushItem: does not model another request running between its lookup and its write, because the code has no mechanism that would make a claim about that true.
- EngineWorker.Worker.OnMessage: does not model two handlers interleaving at their awaits; messages are handled one at a time, in any order.
- EngineClient.Engine.RejectPending: `onerror` and `terminate` only choose the error it is called with, so they have no members of their own.
- VaultItems.InMemoryVaultItemsRepository.Update: does not take a patch that sets the content or a version to `undefined`, which would store a record outside its own type; `SqlPatch.Spread` models that merge.
- RotationRuns.RotationIsSafe: assumes an unlocked vault at each begin and nothing stale under way when a slot is cleared; both are shown to be needed, exactly.
- SqlPatch.BuildUpdate: builds the parsed form of the statement, not its text, and the four tests share one member; the conversion of `bigint` columns, the type of id columns and the driver are not modelled.
- KeyManagement.KeyManager.UnlockWith: stored wrappings and item ciphertexts are values, not shared buffers; only key buffers live on the heap.
- Sync.SyncService.PullItems: the records in the reply are values, so nothing is said of a caller changing them in place.
- Versions, counters and times are unbounded integers; JavaScript's limit of 2^53 is not modelled.
- Timestamps of users and devices, `touchLastSeen`, `clientPublicKey` and `registerStart` (which changes no state): they would add only easy members.
- Token signing, guards, controllers, validation, the `fetch` transport, the connection pool and the other PostgreSQL repositories.
- base64, JSON and text encoding and the item serializer; the rotation payload is encoded by a given function with a round-trip law.
- IndexedDB beyond one slot with save, load and clear; React components, clipboard, timers and Tauri code.
- Timing, quality of randomness and secrecy.
