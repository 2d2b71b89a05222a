# Verification of the authentication service

This project models the authentication service in Dafny 4.11 and proves what its callers rely on. Postgres is
the source of truth, a Redis layer sits in front of every authorization decision, and an outbox is drained by
several publishers at once. For each component there is a specification on values (states, operations, a step
function, runs), theorems about every run of it, and the service itself as a class whose methods and loops are
proved to be the steps of that specification and to keep what its runs keep.

| files | component |
|---|---|
| `OutboxProtocol`, `OutboxOwnership`, `OutboxDrain` | the outbox as interleaved steps of any number of publishers: at-least-once, exclusive ownership, draining, recovery |
| `OutboxPublisher`, `OutboxCleanup`, `OutboxSubscriber` | the publisher run, the nightly cleanup and the subscriber that fills the outbox |
| `TrackedCache` | a Redis cache with a tracking set, command by command, with lost commands and lost replies |
| `EndpointRules`, `EndpointRulesEffects`, `EndpointRulesCoherence`, `EndpointRulesFaults`, `EndpointRulesService` | what each operation on endpoint permission rules means, the cache in front of them, how it goes stale under faults, and the hourly reconciliation |
| `ApiKeys`, `ApiKeysEffects`, `ApiKeysRevocation`, `ApiKeysService` | what each operation on API keys means, and their cache: revocation under arbitrary faults |
| `Jwt`, `Sessions`, `SessionsEffects`, `SessionsCoherence`, `SessionCopies`, `SessionsService` | tokens, sessions with expiry, what each user and session operation means, the per-user index, propagation of permissions, and what the copies of permission codes in sessions influence |
| `Guards`, `UserAccess`, `AuthGuardService` | the guard of user requests over both caches at once |
| `KeyAccess`, `ApiKeyGuardService` | the guard of machine requests |
| `ValidationErrors`, `Pagination`, `Seeding`, `SeedService` | the search for the first validation error, page arithmetic, the database seed |
| `Common`, `Permissions` | shared datatypes and the permission table |

`dafny verify dfyconfig.toml` checks everything.

What an operation means is stated apart from the step function, on the fields of the rows and sessions themselves
(the `…Effects` modules, `Guards.Judges`, `OutboxProtocol.PicksOldest`): when it is refused and with which error,
what a saved one leaves, and what later lookups answer. The methods carry the same clauses.

How faults are modelled: a command sent to Redis or Postgres is carried out, is not carried out, or is carried out
although its reply is lost (`Common.Outcome`). Where the order of rows or set members is the database's to choose,
methods pick any order.

Results that contradict a first reading of the code or its documentation:

- Exclusive ownership of outbox rows fails once a publisher is still at work sixty seconds after its claim:
  `OutboxOwnership.LateWorkerUndoesSent` is a run in which a late publisher puts a SENT row back to PENDING, and
  `OutboxOwnership.ClaimKeepsExclusiveIff` says exactly when a claim keeps ownership exclusive.
- SENT is not terminal even when every publisher is in time: after a SENT write whose reply is lost, the error path
  puts the row back to PENDING (`OutboxOwnership.LostReplyReopensSent`). `OutboxOwnership.SentIsTerminalIff` shows that
  nothing else does.
- A propagation of permissions that Redis does not carry out is reported as a success, and the session goes on with the
  codes it was last given: `SessionsCoherence.StalePropagation` is a run, `SessionsCoherence.CopiesStep` says what every
  operation does to those codes, and `SessionsCoherence.CurrentStepIff` exactly when they are the current ones.
- Disabling a rule while Redis refuses the delete is reported as a success, and the endpoint is served from the cache
  as before: `EndpointRulesFaults.StaleDisable`. `EndpointRulesFaults.MutationRightIff` says exactly when an operation
  leaves a wrong entry.
- Renaming a rule to an empty key name, which request validation rejects, would leave a stale entry:
  `EndpointRulesCoherence.UpdateCoherentIff`.
- `changePermissions` on an inactive API key makes it valid again: `ApiKeysRevocation.ChangeRevives`, and for every
  combination of faults `ApiKeysRevocation.ChangePermissionsSafeIff`.
- A change of an active API key's permissions that is saved but does not get to drop the entry reports an error, and the
  old codes stay in force through every reconciliation: `ApiKeysRevocation.LostCodesLast`, and exactly then
  (`ApiKeysRevocation.CoherentIff`).
- A login cut off between adding to the index and renewing it can leave a session that outlives its index:
  `SessionsCoherence.LogInOutlivesIff` and the run `SessionsCoherence.CutOffLogin`.
- Deactivating a user ends none of the user's sessions: `UserAccess.DeactivatedUserStillJudged`.
- The repository's README (lines 363-366, 384) says that the seeder creates 23 permissions and 23 rules and that existing
  roles retain their permission assignments. The seed data has 32 permissions and 36 rules, and a seeded role that
  names no codes is given all permissions; it keeps what it had only if that was everything
  (`Seeding.RoleKeepsPermissionsIff`).

## Model

| member | source | states |
|---|---|---|
| OutboxProtocol.ClaimBatchSpec | src/cron/outbox-publisher.service.ts:71-103 | a claim picks PENDING rows and PROCESSING rows claimed more than 60000 ms ago, audit ones, unlocked, none twice, at most a hundred and all if there are no more; earlier in the batch means created earlier or, at the same time, a smaller id, and so does picked against passed over |
| OutboxProtocol.ClaimedIff | src/cron/outbox-publisher.service.ts:71-97 | an event is claimed exactly when it is so due and unlocked and fewer than a hundred such rows were created before it, or at the same time with a smaller id |
| OutboxProtocol.SafeStep | src/cron/outbox-publisher.service.ts:34-120 | every step of every publisher, insert, tick and cleanup keeps the invariant: a row waits or has been sent and emitted, a deleted row has been emitted, a publisher past its emit has emitted |
| OutboxProtocol.AtLeastOnceAlways | src/cron/outbox-publisher.service.ts:34-120 | over every interleaving, failed writes, deaths and late writes included: each committed event has been emitted or waits as PENDING or as PROCESSING with a claim time; SENT or deleted implies emitted; FAILED never occurs |
| OutboxOwnership.ClaimTakesNothingHeld | src/cron/outbox-publisher.service.ts:68-90 | while publishers are within the threshold, no claim takes a row that a live publisher holds |
| OutboxOwnership.ExclusiveStep | src/cron/outbox-publisher.service.ts:34-120 | every step of a timely system keeps remaining batches disjoint and every held row PROCESSING with its holder's claim time, or SENT (or already deleted) where the reply to the holder's SENT write was lost |
| OutboxOwnership.ExclusiveOwnership | src/cron/outbox-publisher.service.ts:16-120 | over every timely run, lost confirmations and replies included, ownership is exclusive, and the emits of an event are one if it is settled, one if it is between a confirmed emit and its SENT write, and one for each emit that no lasting SENT write followed |
| OutboxOwnership.ExactlyOnceWhenAcknowledged | src/cron/outbox-publisher.service.ts:39-63 | in a timely run an event whose emits were all confirmed and followed by lasting SENT writes is emitted at most once, and exactly once when settled |
| OutboxOwnership.SentIsTerminalIff | src/cron/outbox-publisher.service.ts:44-53 | in a timely system a step changes a SENT row, other than by deleting it, if and only if it is the PENDING write of a publisher at that row, and then that publisher's own SENT write had lost its reply |
| OutboxOwnership.AcknowledgedIff | src/cron/outbox-publisher.service.ts:40-53 | a publisher's step leaves its event settled and in nobody's batch exactly when its SENT write is confirmed, or its error path ends after the row was cleaned up |
| OutboxOwnership.AcknowledgedForGood | src/cron/outbox-publisher.service.ts:34-120 | in every timely run an event so acknowledged is never claimed, changed or emitted again |
| OutboxOwnership.LostReplyReopensSent | src/cron/outbox-publisher.service.ts:44-53 | a timely run in which the error path after a lost reply reopens a SENT row |
| OutboxOwnership.ClaimKeepsExclusiveIff | src/cron/outbox-publisher.service.ts:66-120 | for any state and timing, a claim keeps ownership exclusive if and only if no held event is exposed: stale, unlocked and within the hundred oldest |
| OutboxOwnership.StalledOverlap | src/cron/outbox-publisher.service.ts:75-90 | a run in which two live publishers hold the same event |
| OutboxOwnership.LateWorkerUndoesSent | src/cron/outbox-publisher.service.ts:49-53 | a run in which a late publisher's error path turns a SENT row back into PENDING |
| OutboxDrain.CleanTickRuns | src/cron/outbox-publisher.service.ts:34-63 | the steps of one undisturbed publisher run send exactly the claimed batch, emitting it in order |
| OutboxDrain.DrainRuns | src/cron/outbox-publisher.service.ts:33-64 | several undisturbed publisher runs, one after the other, are a run of the protocol without inserts |
| OutboxDrain.TickShrinksBacklog | src/cron/outbox-publisher.service.ts:95-119 | one clean tick takes the oldest hundred off the backlog and leaves the rest in order |
| OutboxDrain.DrainProgress | src/cron/outbox-publisher.service.ts:34-63 | after k clean ticks exactly the first 100k rows of the backlog are SENT and emitted in order, and nothing else has changed |
| OutboxDrain.DrainTheorem | src/cron/outbox-publisher.service.ts:34-120 | the n rows that are due are gone after ceil(n/100) ticks and not before; then each is SENT and was emitted once; after any number k of ticks the oldest 100k have been emitted, by creation time and then by id, and all rows that were not due are untouched |
| OutboxDrain.DeliveryAlwaysPossible | src/cron/outbox-publisher.service.ts:66-120 | from every reachable state, whatever has failed, some continuation without inserts emits every committed audit event |
| OutboxPublisher.OutboxPublisherService.ClaimAvailableEvents | src/cron/outbox-publisher.service.ts:66-121 | the claim transaction returns the oldest hundred of the due, unlocked rows in order of creation time and id, leaves exactly these PROCESSING with the claim time, and is the protocol's claim step |
| OutboxPublisher.OutboxPublisherService.Publish | src/cron/outbox-publisher.service.ts:40-62 | emit, SENT write and error path for one event, each carried out, failed, or carried out with its reply lost, are steps of the protocol and leave the table as specified |
| OutboxPublisher.OutboxPublisherService.HandleAuditEvents | src/cron/outbox-publisher.service.ts:34-64 | the scheduled run with its loop is one worker's run of the protocol; it leaves each event SENT or PENDING as its delivery went, and stops early only when an error path fails |
| OutboxPublisher.PublishRuns | src/cron/outbox-publisher.service.ts:40-62 | what the code does for one event is exactly what the protocol's steps for it do |
| OutboxPublisher.CleanTrace | src/cron/outbox-publisher.service.ts:34-64 | without faults the steps of the scheduled run are those of the clean tick |
| OutboxCleanup.OutboxCleanupService.DeleteSentBatch | src/cron/outbox-cleanup.service.ts:33-47 | one query deletes min(1000, n) SENT rows and nothing else |
| OutboxCleanup.OutboxCleanupService.HandleOutboxCleanup | src/cron/outbox-cleanup.service.ts:21-68 | on n SENT rows the loop stops after exactly floor(n/1000)+1 iterations having deleted exactly these n; a query that fails leaves full batches deleted, and one batch more if only its reply was lost; no other row is touched |
| OutboxCleanup.CleanupIff | src/cron/outbox-cleanup.service.ts:33-47 | the protocol's cleanup step deletes any at most thousand SENT rows and nothing else, as a query of the job does |
| OutboxSubscriber.RecordsExactlyAudited | src/cron/outbox-subscriber.service.ts:28-120 | one record for each audited write and none for the others, in the order of the writes |
| OutboxSubscriber.RecordsSpec | src/cron/outbox-subscriber.service.ts:28-147 | the records of a sequence of writes are, in order, those of the writes with an entity and metadata whose target and name are not `OutboxEntity` and whose table is not `outbox` in any case; each names what was done, the entity and its key, is PENDING and goes to the audit queue |
| OutboxSubscriber.OutboxTable.AfterWrite | src/cron/outbox-subscriber.service.ts:28-147 | the hook adds one record for an audited write and none otherwise; saving that record triggers no further one, so the recursion ends |
| OutboxSubscriber.OutboxTable.Transaction | src/cron/outbox-subscriber.service.ts:28-147 | a commit adds exactly the records of the transaction's audited writes, a rollback adds none |
| TrackedCache.ExecPutMore | src/services/endpoint-permission-rules/endpoint-permission-rules.service.ts:52-58 | two more commands of a MULTI write an entry and track it, after whatever is queued before them |
| Permissions.CodesFor | src/services/permissions/permissions.service.ts:65-74 | permissions are looked up one by one: all codes in order, or a failure if any id is missing |
| EndpointRules.LookupById | src/services/endpoint-permission-rules/endpoint-permission-rules.service.ts:115-136 | with unique key names, what the database says of a key is what the rule bearing it says |
| EndpointRules.MutateKeepsUnique | src/services/endpoint-permission-rules/endpoint-permission-rules.service.ts:154-289 | no mutation makes a key name ambiguous |
| EndpointRulesEffects.CreateEffect | src/services/endpoint-permission-rules/endpoint-permission-rules.service.ts:154-169 | a rule is refused if its id or key is taken; a saved one is enabled and asks for nothing |
| EndpointRulesEffects.UpdateEffect | src/services/endpoint-permission-rules/endpoint-permission-rules.service.ts:171-194 | refused for an unknown rule or another rule's key; a saved update sets the name and flag that are given and keeps the codes |
| EndpointRulesEffects.DeleteEffect | src/services/endpoint-permission-rules/endpoint-permission-rules.service.ts:196-210 | refused for an unknown rule; a saved deletion removes this row only |
| EndpointRulesEffects.AssignEffect | src/services/endpoint-permission-rules/endpoint-permission-rules.service.ts:240-257 | refused for an unknown rule or permission; a saved assignment sets the permissions' codes in order and keeps name and flag |
| EndpointRulesEffects.EnableEffect | src/services/endpoint-permission-rules/endpoint-permission-rules.service.ts:259-273 | refused for an unknown or an enabled rule; a saved one sets the flag and keeps name and codes |
| EndpointRulesEffects.DisableEffect | src/services/endpoint-permission-rules/endpoint-permission-rules.service.ts:275-289 | refused for an unknown or a disabled rule; a saved one clears the flag and keeps name and codes |
| EndpointRulesEffects.LookupAfter | src/services/endpoint-permission-rules/endpoint-permission-rules.service.ts:115-136 | what the table says of the rule's new and old key after each mutation that succeeded: no codes after a creation, the codes it had after enabling, refusals after disabling and deleting, the given ones after an assignment |
| EndpointRulesEffects.LookupEffect | src/services/endpoint-permission-rules/endpoint-permission-rules.service.ts:100-152 | a lookup answers the cached codes if Redis has them, otherwise what the row with the key says, or that Postgres cannot be read, and changes no row |
| EndpointRulesEffects.CacheAfter | src/services/endpoint-permission-rules/endpoint-permission-rules.service.ts:47-98 | what every operation does to the cache, whatever fails and command by command: nothing unless a save is confirmed; a deletion and a disabling drop the entry; other mutations bring it in line, after a renaming under the new name; a lookup writes what it had to read; a warm-up writes all enabled rules; a reconciliation first drops what is tracked |
| EndpointRulesCoherence.MutationFrame | src/services/endpoint-permission-rules/endpoint-permission-rules.service.ts:154-289 | a mutation changes what the table says about the old and the new key of its rule and no other |
| EndpointRulesCoherence.MaintainExact | src/services/endpoint-permission-rules/endpoint-permission-rules.service.ts:67-98 | fault-free maintenance makes every touched key right or absent, leaves all other entries alone, and keeps cached and tracked keys equal |
| EndpointRulesCoherence.CoherentStep | src/services/endpoint-permission-rules/endpoint-permission-rules.service.ts:47-289 | each fault-free operation keeps the cache coherent and does and answers what the service without a cache does |
| EndpointRulesCoherence.ReadThroughRefinement | src/services/endpoint-permission-rules/endpoint-permission-rules.service.ts:47-289 | every fault-free sequence of create, update, delete, assign, enable, disable, lookup, warm-up, reconcile and Redis restart is answered as direct database lookups would, and cached keys equal tracked keys after it |
| EndpointRulesCoherence.UpdateCoherentIff | src/services/endpoint-permission-rules/endpoint-permission-rules.service.ts:171-194 | an update keeps the cache coherent if and only if it does not rename a cached key to the empty name |
| EndpointRulesCoherence.ReconcileRepairs | src/cron/epr-cache-reconciliation.service.ts:20-77 | from any Redis contents one undisturbed reconciliation tracks exactly the enabled keys and caches each with its database codes; every other surviving entry was cached untracked before, and all of those survive |
| EndpointRulesCoherence.ReconcileRestoresIff | src/cron/epr-cache-reconciliation.service.ts:20-77 | reconciliation restores coherence if and only if every untracked entry is under an enabled key |
| EndpointRulesCoherence.UntrackedOnlyByGap | src/services/endpoint-permission-rules/endpoint-permission-rules.service.ts:67-98 | an operation leaves a new untracked entry only through a fault between its SET and its SADD, and only under a key it writes |
| EndpointRulesCoherence.RunThenReconcile | src/cron/epr-cache-reconciliation.service.ts:20-51 | after any run in which no such gap occurs, whatever else fails, one undisturbed reconciliation makes the cache coherent |
| EndpointRulesFaults.MutationRightIff | src/services/endpoint-permission-rules/endpoint-permission-rules.service.ts:154-289 | under any faults a mutation leaves every entry right if and only if it is not saved, or it changes nothing that is cached, or the delete or reload that repairs that entry is carried out |
| EndpointRulesFaults.StaleDisable | src/services/endpoint-permission-rules/endpoint-permission-rules.service.ts:275-289 | disabling a cached rule with a failed delete succeeds, and later lookups still answer its codes |
| EndpointRulesFaults.LookupKeeps | src/services/endpoint-permission-rules/endpoint-permission-rules.service.ts:100-152 | while every entry is right, a lookup under any faults answers what the table says, or that nothing could be read, and leaves every entry right |
| EndpointRulesFaults.WrongStep | src/services/endpoint-permission-rules/endpoint-permission-rules.service.ts:47-289 | after any operation under any faults an entry is wrong only if the operation did not bring it in line and it was wrong before or its key was touched |
| EndpointRulesFaults.WrongOnlyIfLeft | src/services/endpoint-permission-rules/endpoint-permission-rules.service.ts:47-289 | over every run under any faults a wrong entry lies only under a key that some call touched and neither it nor any later call brought in line, or that was wrong from the start and never brought in line |
| EndpointRulesService.EndpointPermissionRulesService.QueueAll | src/services/endpoint-permission-rules/endpoint-permission-rules.service.ts:47-60 | the loop of a warm-up queues one MULTI that writes and tracks every listed rule |
| EndpointRulesService.EndpointPermissionRulesService.WarmUpCache | src/services/endpoint-permission-rules/endpoint-permission-rules.service.ts:47-65 | from whatever row order, a warm-up caches and tracks every enabled rule or, if its MULTI fails, changes nothing |
| EndpointRulesService.EndpointPermissionRulesService.GetPermissionsForEndpoint | src/services/endpoint-permission-rules/endpoint-permission-rules.service.ts:100-152 | answers the cached codes or, without them, the codes, the refusal or the absence of the rule with that key; this is what the table says whenever every entry is right and something can be read; every entry stays right under any faults |
| EndpointRulesService.EndpointPermissionRulesService.Create | src/services/endpoint-permission-rules/endpoint-permission-rules.service.ts:154-169 | refused if id or key is taken, otherwise an enabled rule without codes; it never makes an entry wrong, under any faults; without faults the cache stays coherent |
| EndpointRulesService.EndpointPermissionRulesService.Update | src/services/endpoint-permission-rules/endpoint-permission-rules.service.ts:171-194 | sets the given name and flag and keeps the codes, or is refused; without faults the cache stays coherent, unless the new name is empty; under faults entries stay right exactly when the update is harmless, the condition of MutationRightIff |
| EndpointRulesService.EndpointPermissionRulesService.Delete | src/services/endpoint-permission-rules/endpoint-permission-rules.service.ts:196-210 | removes the row, or is refused if there is none; without faults the cache stays coherent; under faults entries stay right exactly when the deletion is harmless |
| EndpointRulesService.EndpointPermissionRulesService.AssignPermissions | src/services/endpoint-permission-rules/endpoint-permission-rules.service.ts:240-257 | sets the codes of the permissions in order and nothing else, or is refused; without faults the cache stays coherent; under faults entries stay right exactly when the assignment is harmless |
| EndpointRulesService.EndpointPermissionRulesService.EnableRule | src/services/endpoint-permission-rules/endpoint-permission-rules.service.ts:259-273 | refused for an unknown or an enabled rule, otherwise sets the flag and keeps the codes; without faults the cache stays coherent; under faults entries stay right exactly when enabling is harmless, which it always is |
| EndpointRulesService.EndpointPermissionRulesService.DisableRule | src/services/endpoint-permission-rules/endpoint-permission-rules.service.ts:275-289 | refused for an unknown or a disabled rule, otherwise clears the flag and keeps the codes; without faults the cache stays coherent; under faults entries stay right exactly when disabling is harmless |
| EndpointRulesService.EprCacheReconciliationService.HandleCacheReconciliation | src/cron/epr-cache-reconciliation.service.ts:20-51 | undisturbed, it tracks exactly the enabled keys and caches each with its codes, and restores coherence exactly when nothing untracked lies under another key |
| EndpointRulesService.EprCacheReconciliationService.DeleteStaleKeys | src/cron/epr-cache-reconciliation.service.ts:53-77 | the loop queues one MULTI that deletes every tracked key, in any order, and the tracking set |
| ApiKeysEffects.CreateEffect | src/services/api-keys/api-keys.service.ts:50-77 | refused for an unknown permission or a taken id or fingerprint; a saved key is active, with its client and the permissions' codes in order |
| ApiKeysEffects.DeactivateEffect | src/services/api-keys/api-keys.service.ts:105-121 | refused for an unknown or inactive key, or if the cached entry cannot be dropped; a saved one clears the flag and keeps fingerprint, client and codes |
| ApiKeysEffects.ActivateEffect | src/services/api-keys/api-keys.service.ts:123-139 | refused for an unknown or active key; a saved one sets the flag and keeps the rest |
| ApiKeysEffects.ChangeEffect | src/services/api-keys/api-keys.service.ts:141-158 | refused for an unknown key or permission; a saved one sets the permissions' codes in order and keeps the rest, the flag included |
| ApiKeysEffects.FindAfter | src/services/api-keys/api-keys.service.ts:165-223 | what the table says of the fingerprint after each that succeeded: the given codes, the codes it had, or no key; every other fingerprint is answered as before |
| ApiKeysEffects.FindEffect | src/services/api-keys/api-keys.service.ts:165-223 | a lookup answers the cached codes if Redis has them, otherwise those of the active key with the fingerprint, and refuses if there is none or Postgres cannot be read |
| ApiKeysEffects.CacheAfter | src/services/api-keys/api-keys.service.ts:105-303 | what every operation does to the cache, whatever fails: a deactivation drops the entry before it saves, an activation writes it, a saved change drops it and only then writes the new one, a lookup writes the key it had to read |
| ApiKeysEffects.WarmUpEffect | src/services/api-keys/api-keys.service.ts:237-262 | a warm-up writes and tracks the entries of exactly the active keys, or changes nothing |
| ApiKeysEffects.ReconcileEffect | src/cron/api-keys-cache-reconciliation.service.ts:59-98 | a reconciliation deletes exactly the tracked entries of fingerprints without an active key, or changes nothing |
| ApiKeysRevocation.TrackedRun | src/services/api-keys/api-keys.service.ts:264-303 | tracked fingerprints equal cached fingerprints after every run, whatever fails and with no proviso |
| ApiKeysRevocation.SafeStep | src/services/api-keys/api-keys.service.ts:105-303 | with permission changes on active keys only, each operation under any faults caches no inactive fingerprint |
| ApiKeysRevocation.SafeRun | src/services/api-keys/api-keys.service.ts:105-303 | so does every run |
| ApiKeysRevocation.DeactivationRevokes | src/services/api-keys/api-keys.service.ts:105-121 | a deactivation that reports success leaves the key inactive and uncached, whatever had failed before |
| ApiKeysRevocation.RevocationHolds | src/services/api-keys/api-keys.service.ts:165-223 | in every later run without an activation of that key every lookup of its fingerprint fails, under any faults |
| ApiKeysRevocation.CoherentStep | src/services/api-keys/api-keys.service.ts:105-303 | fault-free operations keep every entry equal to its active key, and lookups answer as the database does |
| ApiKeysRevocation.FaultFreeRefinement | src/services/api-keys/api-keys.service.ts:50-303 | fault-free runs answer exactly as the service without a cache does |
| ApiKeysRevocation.CoherentIff | src/services/api-keys/api-keys.service.ts:105-303 | under any faults, with permission changes on active keys only, an operation leaves every entry equal to its key if and only if it is not a saved change of a cached key's codes whose save is unconfirmed or whose entry is not dropped |
| ApiKeysRevocation.LostCodesLast | src/services/api-keys/api-keys.service.ts:141-158 | after such a change, which reports an error, lookups go on answering the old codes, and reconciliation does not alter that |
| ApiKeysRevocation.CoherentRun | src/services/api-keys/api-keys.service.ts:50-303 | a run under any faults without such a change keeps every entry equal to its key, and lookups then answer as the database would or fail because it cannot be read |
| ApiKeysRevocation.ChangePermissionsSafeIff | src/services/api-keys/api-keys.service.ts:141-158 | under any faults, a change of permissions caches an inactive key if and only if the key is there and inactive, all permissions are known, save and invalidation are confirmed and the reload is carried out |
| ApiKeysRevocation.ChangeRevives | src/services/api-keys/api-keys.service.ts:141-158 | after a fault-free change on an inactive key, lookups answer its codes while the table still says it is inactive |
| ApiKeysRevocation.ReconcileRepairs | src/cron/api-keys-cache-reconciliation.service.ts:59-98 | from any cache contents reconciliation deletes exactly the tracked inactive entries; if every cached key was tracked, every key cached afterwards is active |
| ApiKeysService.ApiKeysService.FindByFingerprint | src/services/api-keys/api-keys.repository.ts:50-55 | finds the active key with the fingerprint, if there is one |
| ApiKeysService.ApiKeysService.Create | src/services/api-keys/api-keys.service.ts:50-77 | stores an active key with its client and the permissions' codes in order, or is refused with the table as it was; under any faults no inactive key comes to be cached; fingerprints stay unique |
| ApiKeysService.ApiKeysService.Deactivate | src/services/api-keys/api-keys.service.ts:105-121 | clears the flag and keeps the rest of the row, or is refused; whatever fails, no inactive key is cached, because the cache is invalidated before the row is saved; if it reports success the key is revoked |
| ApiKeysService.ApiKeysService.Activate | src/services/api-keys/api-keys.service.ts:123-139 | sets the flag and keeps the rest of the row, or is refused; under any faults no inactive key is cached; if it reports success the fingerprint is active |
| ApiKeysService.ApiKeysService.ChangePermissions | src/services/api-keys/api-keys.service.ts:141-158 | sets the permissions' codes in order and keeps the rest of the row, or is refused; under any faults no inactive key is cached, exactly unless it succeeds on an inactive key and the reload is carried out; on an active key every entry stays equal to its key, exactly unless the change loses codes |
| ApiKeysService.ApiKeysService.FindActiveByPlainKey | src/services/api-keys/api-keys.service.ts:165-223 | answers the cached codes or those of the active key, or refuses; a revoked fingerprint is refused whatever fails; without faults the answer is the database's; under any faults no inactive key is cached and no entry spoiled |
| ApiKeysService.ApiKeysService.QueueAll | src/services/api-keys/api-keys.service.ts:244-252 | the loop of a warm-up queues one MULTI that writes and tracks every listed key |
| ApiKeysService.ApiKeysService.WarmUpCache | src/services/api-keys/api-keys.service.ts:237-262 | from whatever row order, an undisturbed warm-up caches every active key; no inactive key is cached, whatever fails |
| ApiKeysService.ApiKeysCacheReconciliationService.FindActiveFingerprintsIn | src/services/api-keys/api-keys.repository.ts:61-72 | answers exactly the given fingerprints that are active |
| ApiKeysService.ApiKeysCacheReconciliationService.DeleteStaleKeys | src/cron/api-keys-cache-reconciliation.service.ts:59-98 | the loop drops exactly the tracked fingerprints that are not active; undisturbed, it leaves only active keys cached if every cached key was tracked |
| Jwt.RefreshKeepsIdentity | src/services/jwt/jwt.service.ts:58-75 | refresh and rotation keep e-mail and sid, and what they hand out is accepted |
| Jwt.RefreshLeavesTime | src/services/jwt/jwt.service.ts:62-75 | the refresh token held afterwards is good for the renewal threshold, or is new |
| Jwt.RotationNeverShortens | src/services/jwt/jwt.service.ts:62-75 | rotation never shortens a token issued under the same configuration |
| SessionsEffects.LogInEffect | src/services/users/users.service.ts:110-178 | a login is refused for an unknown e-mail, a wrong password, a PENDING and an INACTIVE user, with the error of each and nothing changed; otherwise the session is stored field by field for the refresh lifetime, listed, and the index renewed, as many of these as are carried out, and the two tokens are answered if all three are and the reply arrives |
| SessionsEffects.LogInIff | src/services/users/users.service.ts:110-178 | tokens are handed out if and only if the password is right, an ACTIVE user has the e-mail, all three commands are carried out and the last reply arrives |
| SessionsEffects.LogInOnRuns | src/services/users/users.service.ts:110-178 | the same in every state that a run from unique e-mails reaches |
| SessionsEffects.LogOutEffect | src/services/users/users.service.ts:180-187 | deletes this session and then takes it out of this index, as many of the two as are carried out, and completes exactly if both are and the reply arrives |
| SessionsEffects.RefreshEffect | src/services/users/users.service.ts:47-71 | which refresh tokens and sessions are refused and with which error; otherwise only the session's codes and refresh time change, and the answer is a new access token with the old refresh token while it has the threshold left, else with a new one |
| SessionsEffects.CanDoEffect | src/services/users/users.service.ts:73-83 | answers whether the session carries the code, or why it cannot be used, and changes nothing |
| SessionsEffects.DeactivateEffect | src/services/sessions/sessions.service.ts:45-62 | switches the active flag of a readable session off and changes nothing else of it; when it is refused, unparseable or answers false |
| SessionsEffects.FindEffect | src/services/sessions/sessions.service.ts:16-43 | answers the readable sessions that the index names, and takes only sids that cannot be read out of it, as far as it gets |
| SessionsEffects.PropagateEffect | src/services/sessions/sessions.service.ts:64-94 | propagation writes the codes into the readable sessions that the index names, every other field, expiry and session as it was, and leaves the readable ones in the index |
| SessionsEffects.AttemptEffect | src/services/sessions/sessions.service.ts:64-94 | a propagation takes place unless Redis cannot be read or a write that is needed is not carried out, and throws exactly when its read or the reply to that write is missing |
| SessionsEffects.AttemptAllEffect | src/services/sessions/sessions.service.ts:96-107 | the loop over a role's users propagates to one after the other up to the first for whom it throws; the sessions of the users after that one have missed it |
| SessionsEffects.UsersWithRoleIff | src/services/sessions/sessions.service.ts:97-100 | the users it visits are those that have the role, each once |
| SessionsEffects.AssignRoleEffect | src/services/users/users.service.ts:193-208 | refused for an unknown user or role or a failed save; saved, it replaces this user's roles; a save whose reply is lost reaches no session |
| SessionsEffects.AssignPermissionsEffect | src/services/roles/roles.service.ts:97-123 | refused for an unknown role or permission or a failed save; saved, it replaces this role's codes by the permissions' codes in order |
| SessionsEffects.RegisterEffect | src/services/users/users.service.ts:85-108 | refused for an unknown role, a known e-mail or person, or a mail that fails; otherwise exactly one user more, PENDING, with these roles |
| SessionsEffects.FirstActivationEffect | src/services/users/users.service.ts:259-279 | by e-mail, of a PENDING user with the right password, to ACTIVE; which error in every other case |
| SessionsEffects.ActivateEffect | src/services/users/users.service.ts:281-293 | an INACTIVE user becomes ACTIVE and nothing else changes; any other is refused |
| SessionsEffects.DeactivateUserEffect | src/services/users/users.service.ts:295-307 | an ACTIVE user becomes INACTIVE and nothing else changes, sessions included; any other is refused |
| SessionsEffects.HoldsIff | src/entities/user.entity.ts:75-77 | a user holds a code exactly when one of the user's roles gives it |
| SessionsCoherence.LiveIsMember | src/services/users/users.service.ts:157-187 | every live session whose login returned is in its own user's index, which has not expired |
| SessionsCoherence.DropKeepsLive | src/services/sessions/sessions.service.ts:26-41 | cleaning an index, wherever it stops, never removes a readable sid, never adds one, and touches no session, expiry or other index |
| SessionsCoherence.PropagateOnlyPermissions | src/services/sessions/sessions.service.ts:64-94 | propagation changes the permissions field of the user's readable listed sessions and nothing else of any session |
| SessionsCoherence.CarriesAttemptAll | src/services/sessions/sessions.service.ts:96-107 | propagating to all users with a role, wherever the loop stops, leaves every live session of theirs current or recorded as stale |
| SessionsCoherence.AttemptAllStaleIff | src/services/sessions/sessions.service.ts:96-107 | exactly whose sessions the loop leaves stale: those of users with the role for whom it threw without effect, or whom it did not get to |
| SessionsCoherence.InvStep | src/services/users/users.service.ts:47-307 | every operation, cut short or with a lost reply wherever Redis or Postgres can, keeps the invariant: sessions expire at login plus lifetime, indexes list their own and outlive what they list, live sessions carry current codes unless recorded as stale |
| SessionsCoherence.StaleStepIff | src/services/users/users.service.ts:193-208 | exactly when a session has missed an assignment: one concerned its user and did not reach it, or it had missed one and neither this assignment nor a refresh of its own caught up |
| SessionsCoherence.AttemptAllCopies | src/services/sessions/sessions.service.ts:96-107 | exactly which live sessions the loop over a role's users rewrites, with which codes; those of users it does not reach it leaves as they were |
| SessionsCoherence.CopiesStep | src/services/users/users.service.ts:47-208 | exactly what every operation, under any faults, does to the codes that a live session carries: a login, a propagation that reaches it and a refresh write its user's codes of that moment, everything else leaves them |
| SessionsCoherence.CurrentStepIff | src/services/users/users.service.ts:193-208 | exactly when a live session carries its user's current codes after an operation: it was renewed, or the codes it carried are those that hold now; for a session that was current, if and only if it was renewed or the user's codes did not change |
| SessionsCoherence.CarriesLastGiven | src/services/users/users.service.ts:47-208 | over every run a live session carries exactly the codes that it was last given by login, propagation or refresh, read from the database of that moment |
| SessionsCoherence.PropagationAlways | src/services/roles/roles.service.ts:97-114 | after every run, whatever propagations fail, each live session whose login returned is in its user's index, carries the codes it was last given and, unless it has missed an assignment since, exactly its user's current permission codes |
| SessionsCoherence.StalePropagation | src/services/users/users.service.ts:197-206 | a run in which a user loses every role, the assignment is reported as completed, and the user's live session keeps its old codes |
| SessionsCoherence.UniqueEmailsStep | src/entities/user.entity.ts:28-29 | no operation makes an e-mail ambiguous |
| SessionsCoherence.LogInOutlivesIff | src/services/users/users.service.ts:157-164 | exactly when a login that stored a session leaves it listed until it ends, however many of its commands were carried out |
| SessionsCoherence.CutOffLogin | src/services/users/users.service.ts:157-164 | a run in which a live session outlives the index that lists it |
| SessionsCoherence.UseIsWithinLifetime | src/services/users/users.service.ts:47-83 | a session that lets a request or refresh through is within its lifetime, was never deactivated and is still stored |
| SessionsCoherence.EndedStays | src/services/sessions/sessions.service.ts:45-94 | nothing brings back a session that ran out, was deactivated or was removed |
| SessionsCoherence.EndingIff | src/services/users/users.service.ts:180-187 | time aside, a stored session is ended by exactly two things: the first command of its logout, or its deactivation, each once carried out, whether or not the reply arrives |
| SessionsCoherence.AbsoluteLifetime | src/services/users/users.service.ts:47-83 | over every run of refreshes, rotations and rewrites nothing goes through with a sid at or after login time plus the refresh lifetime, nor after its deactivation or logout |
| SessionsService.ReadableSessionsExactly | src/services/sessions/sessions.service.ts:25-42 | the listing loses no readable session, repeats none and invents none |
| SessionsService.SessionsService.FindUserSessions | src/services/sessions/sessions.service.ts:16-43 | without faults lists exactly the user's readable sessions and prunes the rest from the index, in any member order; it fails exactly if the read fails or as many removals are needed as lead to the one that fails, with those before it done; whichever fails, no live session leaves the index |
| SessionsService.SessionsService.DeactivateSession | src/services/sessions/sessions.service.ts:45-62 | a live session is over for good once the write is carried out, reply or no reply; only a live one is reported as deactivated |
| SessionsService.SessionsService.RefreshSessionPermissions | src/services/sessions/sessions.service.ts:64-94 | the loop and its MULTI are propagation to one user, in any member order, or change nothing when a read or the MULTI fails; it throws exactly then, or when the reply to the MULTI is lost |
| SessionsService.SessionsService.RefreshSessionPermissionsByRole | src/services/sessions/sessions.service.ts:96-107 | the loop propagates to one user after the other up to the first for whom it throws, and completes exactly when it throws for none |
| SessionsService.RolesService.AssignPermissions | src/services/roles/roles.service.ts:97-123 | replaces the role's codes or is refused; keeps the invariant under any faults; a completed assignment makes current the sessions of every user its propagation reaches, and completes also when it does not reach all |
| SessionsService.UsersService.RefreshToken | src/services/users/users.service.ts:47-71 | goes through only for a valid token of a session that has not ended, changes the session's codes and refresh time only and makes it current without extending it; every refusal has its error; keeps the invariant whatever fails |
| SessionsService.UsersService.CanDo | src/services/users/users.service.ts:73-83 | refuses ended sessions; for a session that is not stale the answer is about the user's current role-derived codes |
| SessionsService.UsersService.Register | src/services/users/users.service.ts:85-108 | stores the user, PENDING and with the given roles, or, when anything fails, the mail included, leaves the database as it was; e-mails stay unique |
| SessionsService.UsersService.LogIn | src/services/users/users.service.ts:110-178 | tokens are handed out if and only if the password is right, an ACTIVE user has the e-mail, all three commands are carried out and the last reply arrives; every refusal has its error and changes nothing; the stored session is given field by field, and with tokens out it is live, listed, active and carries the user's current codes; the invariant is kept however many of the commands are carried out |
| SessionsService.UsersService.LogOut | src/services/users/users.service.ts:180-187 | once its first command is carried out the session is over for good |
| SessionsService.UsersService.AssignRole | src/services/users/users.service.ts:193-208 | replaces the user's roles or is refused; keeps the invariant under any faults; a completed assignment whose propagation is carried out makes the user's sessions current |
| Guards.CheckEndpointRefines | src/common/guards/auth.guard.ts:73-92 | with a coherent rule cache the endpoint decision is the one read from the rule table, and the cache stays coherent |
| Guards.DbCheckEndpointIff | src/common/guards/auth.guard.ts:73-92 | without a key or with an empty one everything is allowed; otherwise the verdict is allowed if the rule with that key is enabled and asks for nothing or for a held code, and else one of three refusals: no such rule, disabled, insufficient permissions |
| Guards.JudgesIff | src/common/guards/auth.guard.ts:73-92 | there is one such verdict, and it is allowed exactly without a key, with an empty one, or when some enabled rule with that key asks for nothing or for a held code |
| Guards.CheckEndpointEffect | src/common/guards/auth.guard.ts:73-92 | whatever the lookup meets: the verdict on the codes Redis has for the key, the table's, or that the rule cannot be read; without a key the rules and their cache stay as they are |
| SessionCopies.AlikeStep | src/services/sessions/sessions.service.ts:64-107 | states that differ only in the codes copied into sessions stay so under every operation, and every operation but two answers the same from both |
| SessionCopies.PlainStepAgrees | src/services/users/users.service.ts:47-307 | each operation does and answers what the service does that keeps no copies and asks the database, except about sessions that missed a propagation |
| UserAccess.HandedOutStep | src/services/users/users.service.ts:134-169 | every token a login or refresh has handed out in a run is, and stays, one for a sid whose login returned |
| UserAccess.SameSubnetIff | src/common/utils/same-subnet-check.util.ts:1-7 | two addresses share a subnet exactly when both are dotted quads and differ in the last part at most |
| UserAccess.AuthenticateErrors | src/common/guards/auth.guard.ts:27-58 | with which error every request without a live, matching session is refused, in the order of the checks |
| UserAccess.CanActivateEffect | src/common/guards/auth.guard.ts:27-93 | whatever the rule lookup meets: a request without a live, matching session is refused and sets no user; any other sets the session's user and is judged by the codes the session carries |
| UserAccess.AuthenticatedIsCurrent | src/common/guards/auth.guard.ts:39-58 | an authenticated request's session belongs to a known user and, unless it missed a propagation, carries that user's current codes |
| UserAccess.GuardIsDbVerdict | src/common/guards/auth.guard.ts:27-93 | in every coherent state the guard's verdict is the verdict read straight from the database, unless the session missed a propagation; then it is the rule table's verdict on the codes the session carries |
| UserAccess.GuardUnderRuleFaults | src/common/guards/auth.guard.ts:73-92 | whatever has happened to the rule cache and whatever the lookup meets, with no wrong entry under the endpoint's key the verdict is the database's, or that the rule could not be read |
| UserAccess.VerdictUnlessLeft | src/common/guards/auth.guard.ts:27-93 | over every joint run, session and rule operations under any faults, a request whose session has missed no propagation is judged as the database would judge it or refused because the rule cannot be read, unless some call changed the endpoint's rule and neither it nor any later call brought the cached entry in line |
| UserAccess.GuardRefinement | src/common/guards/auth.guard.ts:27-93 | every joint run of session, role and rule operations and guarded requests, session operations under any faults and rule operations under none, answers as the system that keeps no copies of codes in sessions, caches no rules and reads both from the database, except about sessions that missed a propagation |
| UserAccess.NothingStale | src/services/users/users.service.ts:193-208 | while propagations meet no fault no session misses one, so that the agreement has no exceptions |
| UserAccess.AllowedIff | src/common/guards/auth.guard.ts:27-93 | in every reachable state, for every key or none, a request with a live, matching session is let through without a key or with an empty one, leaving all state as it was, and, if the session missed no propagation, at any other key exactly when an enabled rule with that key asks for nothing or for a code that one of the user's roles now gives |
| UserAccess.GuardLifetime | src/common/guards/auth.guard.ts:43-52 | once a session has run out, been deactivated or been logged out, no guarded request and no session operation goes through with it, whatever happens in between |
| UserAccess.DeactivatedUserStillJudged | src/services/users/users.service.ts:295-307 | deactivating a user changes no verdict of the guard |
| AuthGuardService.AuthGuard.CanActivate | src/common/guards/auth.guard.ts:27-93 | refuses every request without a live, matching session, sets the request's and the context's user for any other, and judges it by the codes the session carries, over every key, without touching the rules when there is no key; in coherent states the verdict is the rule table's on the codes the user's roles give; keeps the rule cache coherent |
| KeyAccess.ExtractApiKeyIff | src/common/utils/extract-api-key.util.ts:5-19 | the header is accepted exactly when it is single and not blank, and the key is what remains without the blanks around it |
| KeyAccess.GuardIsDbVerdict | src/common/guards/api-key.guard.ts:18-57 | with both caches coherent the verdict on a machine request is the one read from the two tables |
| KeyAccess.GuardRefinement | src/common/guards/api-key.guard.ts:18-57 | so it is after every fault-free run of key and rule operations and guarded requests |
| KeyAccess.RevokedKeyRefused | src/common/guards/api-key.guard.ts:27-30 | after every run of key and rule operations and guarded requests under any faults, a key revoked before it and not activated in it is refused at every endpoint, whatever fails then |
| KeyAccess.CanActivateEffect | src/common/guards/api-key.guard.ts:18-57 | whatever fails: the header's key is refused unless Redis has codes for its fingerprint or the table an active key with it; by those codes the request is judged, over every endpoint key |
| KeyAccess.AllowedIff | src/common/guards/api-key.guard.ts:18-57 | after every fault-free run a machine request is let through exactly when an active key has the fingerprint and the route has no key, an empty one, or one whose enabled rule asks for nothing or for a code of the API key |
| ApiKeyGuardService.ApiKeyGuard.CanActivate | src/common/guards/api-key.guard.ts:18-57 | judges the request by the cached or stored codes of the active key with the header's fingerprint, over every endpoint key, or refuses it; refuses a revoked key whatever fails; without faults gives the verdict of the two tables and keeps both caches coherent |
| ValidationErrors.FindFirstErrorCode | src/common/utils/find-errors-data.util.ts:3-20 | the queue loop ends and returns the code of the leftmost of the shallowest nodes that carry one, or nothing exactly when none does |
| ValidationErrors.FindFirstMessage | src/common/utils/find-errors-data.util.ts:22-35 | likewise for the first constraint's message, with the default text when no node has one |
| ValidationErrors.FirstContextCode | src/common/utils/find-errors-data.util.ts:9-14 | a node's own code is its first one, in key order, that is not empty |
| ValidationErrors.OwnIff | src/common/utils/find-errors-data.util.ts:7-29 | a node's own message is its first constraint's text, its own code the first context's code that is not empty |
| ValidationErrors.VisitAppend | src/common/utils/find-errors-data.util.ts:4-17 | the queue visits the nodes in front before any of their children |
| ValidationErrors.NextLevel | src/common/utils/find-errors-data.util.ts:16-16 | the children of all paths of one length, in order, are all paths of the next length, from left to right |
| ValidationErrors.FirstIsShallowestLeftmost | src/common/utils/find-errors-data.util.ts:3-35 | what the queue finds first is what the leftmost shallowest node has, for codes and messages alike |
| ValidationErrors.FirstPathUnique | src/common/utils/find-errors-data.util.ts:3-35 | there is only one such node |
| Pagination.PageLength | src/interfaces/DTO/pagination.dto.ts:29-35 | how long each page is, for every page number |
| Pagination.FindAllSpec | src/interfaces/DTO/pagination.dto.ts:29-35 | the response has the total, the page and the limit asked for, and exactly the rows from (page - 1) * limit on, as many as the limit and the table allow |
| Pagination.Partition | src/services/api-keys/api-keys.repository.ts:29-37 | pages 1 to `totalPages` joined are exactly the rows in order, each is non-empty, all but the last are full, later ones are empty |
| Pagination.OnePageEach | src/services/api-keys/api-keys.repository.ts:29-37 | every row is on exactly one page, at its distance from where that page begins |
| Seeding.UpsertRulesAt | src/database/seed/seed.service.ts:69-76 | the upsert sets `enabled` of the seeded rules and keeps their permissions and all other rules |
| Seeding.SeedRulesAt | src/database/seed/seed.service.ts:65-97 | what both passes together make of the rule under any key |
| Seeding.SeedRolesAt | src/database/seed/seed.service.ts:103-136 | what the role loop makes of the role with any name |
| Seeding.SeedEffect | src/database/seed/seed.service.ts:20-184 | the whole effect of a successful seed, row by row; what the seed does not name is as it was, and an existing admin keeps password and person |
| Seeding.SeedRulesSpec | src/database/seed/seed.service.ts:47-97 | after a successful seed a permission is there if it was or is seeded; a seeded rule has its flag and its own code; all other rules are as they were |
| Seeding.SeedRolesSpec | src/database/seed/seed.service.ts:103-136 | a role has the flag of its last entry and the codes listed there, all permissions if it lists none; all other roles are as they were |
| Seeding.SeedUsersSpec | src/database/seed/seed.service.ts:142-184 | the admin has the seeded status and those of the named roles that exist; a new one gets the hash and the person, an existing one keeps both; other users are untouched |
| Seeding.SeedFailsIff | src/database/seed/seed.service.ts:20-184 | exactly which seeds cannot be applied: those with a code or an endpoint key twice, and those whose admin is new while the person is a user already |
| Seeding.Idempotent | src/database/seed/seed.service.ts:20-184 | a second seed changes nothing, the password hash included |
| Seeding.AdminSatisfiesEveryRule | src/database/seed/seed.service.ts:103-184 | afterwards the admin holds every permission and satisfies every enabled rule, seeded or not |
| Seeding.ShippedAdminSatisfiesEveryRule | src/database/seed/seed.data.ts:158-170 | so does the admin of the shipped seed, whatever its permissions and rules, and is active |
| Seeding.RoleKeepsPermissionsIff | src/database/seed/seed.service.ts:122-131 | a role seeded without codes keeps its permissions if and only if it had all of them |
| SeedService.SeedService.Run | src/database/seed/seed.service.ts:20-45 | the run commits the whole seed or leaves the database as it was, whichever statement fails, and ends the transaction either way; without faults it succeeds exactly when the seed can be applied |
| SeedService.SeedService.SeedEndpointPermissionRules | src/database/seed/seed.service.ts:65-97 | the upsert and the loop are the rule phase |
| SeedService.SeedService.SeedRoles | src/database/seed/seed.service.ts:103-136 | the loop is the role phase |
| SeedService.SeedService.SeedUsers | src/database/seed/seed.service.ts:142-184 | both branches are the admin phase: an existing user keeps the password |

## Left out

- OutboxOwnership.ExclusiveOwnership: assumes that publishers finish or die within 60000 ms of their claim; without that it is false (`LateWorkerUndoesSent`), and `ClaimKeepsExclusiveIff` is the exact condition.
- EndpointRulesCoherence.ReadThroughRefinement: is about runs without faults and operations that are atomic; a backfill that races a disable can leave a stale entry. A key name is never empty in an update, as request validation requires; `UpdateCoherentIff` says what happens otherwise, and `EndpointRulesFaults` what faults do.
- ApiKeysRevocation.SafeRun: permissions are changed on active keys only; `ChangePermissionsSafeIff` says what happens otherwise. Operations are atomic.
- SessionsCoherence.PropagationAlways: covers sessions whose login returned; session methods are atomic. The query for the users with a role is taken to return them with all their roles (src/services/sessions/sessions.service.ts:97-100), as its unit test does.
- UserAccess.GuardRefinement: rule operations and lookups meet no fault (`VerdictUnlessLeft` says what is left when they do), and nobody but the service signs tokens. A Redis read that fails in the guard or in `canDo` refuses the request and changes nothing.
- Seeding.Idempotent: timestamps are not modelled, and saving only the relation of a new user is taken not to fire the update hook that would hash the password again.
- SeedService.SeedService.Run: a COMMIT whose reply is lost reports failure although the seed is in place.
- Editing or deleting permissions and deleting roles, which refresh no cache, and seeding in the middle of a run: outside the operation sets of the coherence theorems.
- Resetting and changing passwords: no session or permission depends on them; whether a password matches is a parameter.
- Cryptography: HMAC is an arbitrary function, bcrypt hashes and new session ids are parameters, a token carries a flag that says whether its signature is valid.
- Token claims that the service does not set (`nbf`, `iat`), and JSON encoding beyond whether a stored value parses.
- Client address extraction from headers; the subnet test on the resulting addresses is modelled.
- The order of rows in a many-to-many relation, taken to be the order of assignment.
- MicroserviceGuard: repeats the API-key guard and the session part of the user guard.
- Audit payload and pattern texts, metrics, logging, mail, HTTP, dependency injection and request validation.
- Postgres, TypeORM, Redis and RabbitMQ internals: maps, sets with expiry, atomic MULTI, skip-locked claims, and an emit that may fail.
