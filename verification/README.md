# Tenancit: a verified model of the control plane's protocols

Tenancit is a multi-tenant control plane. Its hard logic is a set of concurrent
protocols over database rows. This project models eight of them in Dafny and proves
what they promise over every run, every interleaving or every input:

| files | component |
|---|---|
| `Webhook.dfy`, `WebhookRuns.dfy`, `WebhookTiming.dfy`, `WebhookWitness.dfy` | webhook outbox delivery: leases, compare-and-swap settlement, backoff, circuits, dead letters, replay, retention |
| `Rewrap.dfy`, `RewrapRunner.dfy`, `RewrapRuns.dfy` | the AES key rewrap campaign: locked batches, keyset-paged preflight, progress loop, live writers |
| `RateLimit.dfy` | the token bucket in memory and in the Lua script with its expiring key |
| `Resources.dfy`, `Provisioning.dfy`, `ResourceRuns.dfy`, `ResourceValues.dfy`, `ResourceChecks.dfy`, `MaskedValues.dfy` | linked resources with per-field overrides, provisioning, duplication, editing |
| `Etag.dfy`, `Resolve.dfy`, `ResolveAnswers.dfy`, `NotModified.dfy`, `ResourceWitness.dfy` | the resolve endpoint: tag, body and 304, read at different instants (sections 8.8.3, 13.1.2 and 15.4.5 of RFC 9110) |
| `Idempotency.dfy`, `IdempotencyRuns.dfy`, `IdempotencyLifetimes.dfy` | idempotent admin mutations |
| `Export.dfy`, `ExportRuns.dfy`, `ExportLifetimes.dfy` | one-shot audit export jobs |
| `Settings.dfy`, `Sessions.dfy` | settings under a revision (section 13.1.1 of RFC 9110) and the sessions they govern |
| `Usage.dfy` | the bounded, batching usage collector |
| `Sql.dfy`, `Sorting.dfy`, `Text.dfy`, `Aead.dfy`, `Hashing.dfy`, `Values.dfy`, `Wrappers.dfy` | ordered queries, sorting, number text, ideal cryptography, stored values |

Code that changes state step by step is a class whose methods are proved against
specification functions. The `...Runs` modules take those same functions as the atomic
steps of a state machine, one step per SQL statement or transaction, and prove
invariants and theorems over all sequences of steps. Row locks are explicit where the
code relies on them.

## Assumptions

- AES-256-GCM is an ideal versioned AEAD: a ciphertext opens, under the key and nonce
  that sealed it, to the text that was sealed, and nothing else opens (`Aead.dfy`).
- SHA-256 is injective (`Hashing.dfy`).
- Ids, lease tokens and session tokens are fresh; ids have 128 bits.
- Every update of `updated_at` writes a stamp never used before on that row
  (`NotModifiedAnswers.FreshStamps`); clocks are monotone only where a theorem says so.
- The foreign key from a linked resource to its source blocks deleting the source, as
  the schema declares.
- One transaction's effects appear at once, at its commit. Uncommitted work is modelled
  where it matters: the rewrap batch beside application transactions, and idempotent
  requests.

## Findings

- An open webhook circuit need not stay open. Every settled failure writes the target's
  circuit, and it writes NULL when it is dead-lettered or when its claim saw fewer than
  four failures, even over a circuit that another failure opened meanwhile.
  `Webhook.FailureOpensCircuitIff` is the exact condition, and
  `WebhookWitness.OpenCircuitCloses` is a run from the empty tables in which it happens.
- A dead letter keeps the reason of its first failure through replays
  (`WebhookRuns.DeadLetterKeepsFirstReason`).
- The comment on `computeETag` says that any change of a resource changes the tag.
  Clearing an override touches no stamp, so it does not. The model follows the code: a
  304 keeps a right body if and only if, since that body was read, no clear changed a
  text of a resource the answer lists (`NotModifiedAnswers.NotModifiedIsSoundIff`), and
  `ResourceWitness.StaleBodyIsKept` is a run from the empty tables whose last answer is a
  304 for a stale body.
- A linked resource may be created with an empty override of a required field that its
  source provides, although editing a field to the empty text is refused
  (`ResourceValues.EmptyOverrideOnlyAtCreation`). A required field of a new resource
  reads as empty if and only if it was given so, or not given at all while its source
  reads so (`ResourceValues.RequiredReadsEmptyIff`); `ResourceWitness.RequiredFieldReadsEmpty`
  is a run that ends that way. A duplicate of such a resource fails on the required field
  (`ResourceValues.DuplicateFieldErrorIff`).
- The four separate COALESCE columns may mix two rows of different shapes
  (`Resources.ColumnwiseIsRowwiseIff`, `Resources.MixedShapesLoseTheOverride`); no
  reachable state has such rows (`ResourceValues.MergedIsOverride`).
- "In progress" is never answered for an idempotency key, because no committed record is
  ever half done (`IdempotencyRuns.NoCommittedRecordIsProcessing`).

## Model

| member | source | states |
|---|---|---|
| RateLimit.Memory.Allow | server/internal/ratelimit/limiter.go:44-67 | the call changes only that client's bucket, to the one `MemoryCall` defines, and returns its reply; the lemmas below are about `MemoryCall` |
| RateLimit.RetryAfterIsLeastWait | server/internal/ratelimit/limiter.go:60-62 | after a refusal the next call is admitted if and only if it comes at least RetryAfter later: RetryAfter is the least whole wait |
| RateLimit.ResetAfterIsLeastWait | server/internal/ratelimit/limiter.go:63-64 | the bucket is full again if and only if at least ResetAfter has passed |
| RateLimit.WaitingTheHeaderAdmits | server/internal/httpapi/rate_limit.go:43-44 | a client that waits the rounded-up Retry-After header and sends nothing else in between is admitted |
| RateLimit.AdmissionsArePaid | server/internal/ratelimit/limiter.go:54-60 | over any history, the tokens spent by a client's admitted calls never exceed its credit at the start plus the refill since |
| RateLimit.TokensStayInRange | server/internal/ratelimit/limiter.go:54-58 | in every history with a monotone clock a client's tokens stay between zero and the limit |
| RateLimit.RateBound | server/internal/ratelimit/limiter.go:44-67 | in any history of any clients, a window of length w admits at most rpm + rpm * w / minute calls of one client |
| RateLimit.TtlIsTwoMinutes | server/internal/ratelimit/limiter.go:117-117 | the key's time to live is two minutes whatever the rate, so longer than any refill |
| RateLimit.EvictionIsUnobservable | server/internal/ratelimit/limiter.go:98-119 | the expiring key gives, on every history, the replies of a key that never expires, even when rpm changes between calls |
| RateLimit.ScriptAgreesWithMemory | server/internal/ratelimit/limiter.go:98-119 | on millisecond-aligned monotone clocks the script takes the same decisions as the in-memory bucket and reports its waits rounded up to milliseconds |
| RateLimit.LuaReplyInRange | server/internal/ratelimit/limiter.go:143-148 | every reply of the script passes the range checks of its client, so a reply that arrives is never turned into "unavailable" |
| RateLimit.RemainingIsAdmitted | server/internal/ratelimit/limiter.go:58-66 | Remaining is exactly the number of further calls admitted at that instant, and Limit is the rate |
| RateLimit.BurstIsTheLimit | server/internal/ratelimit/limiter.go:48-53 | a client seen for the first time has exactly its whole limit admitted at once |
| RateLimit.HeaderIsLeast | server/internal/httpapi/rate_limit.go:43-44 | the Retry-After header is the least whole number of seconds, from one on, that covers the wait |
| RateLimit.Valkey.Allow | server/internal/ratelimit/limiter.go:121-155 | the caller sees exactly the script's decision whenever the server answers, and the stored bucket stays within its capacity |
| Webhook.DeliveryStore.Claim | server/internal/webhook/store.go:31-77 | a positive limit claims exactly the candidates, leasing them under one fresh token and counting the attempt, and returns them joined with their targets; a non-positive limit changes nothing |
| Webhook.ClaimTakesTheEarliest | server/internal/webhook/store.go:44-45 | what a claim leaves behind although due and free comes after everything it took, and only when the limit was reached |
| Webhook.DeliveryStore.MarkDelivered | server/internal/webhook/store.go:79-98 | settles as delivered, and resets the target's counter and circuit, if and only if the lease is still held; otherwise nothing changes |
| Webhook.DeliveryStore.MarkFailed | server/internal/webhook/store.go:100-129 | settles as retry or dead letter, counts the failure, writes the circuit given and inserts a dead letter only if there is none, if and only if the lease is still held |
| Webhook.DeliveryStore.Replay | server/internal/webhook/store.go:131-149 | only a dead-lettered delivery returns to pending with no attempts, and its dead letter is marked replayed |
| Webhook.DeliveryStore.RunRetentionOnce | server/internal/webhook/retention.go:48-69 | the three deletes in this order never violate a foreign key, and remove exactly the old finished deliveries, their dead letters, and old events left without deliveries |
| Webhook.RetentionSparesLiveWork | server/internal/webhook/retention.go:56-64 | retention never removes unfinished work, its event, or the dead letter of a delivery that stays |
| Webhook.Worker.Fail | server/internal/webhook/worker.go:113-128 | settles a failure with the wait, dead-letter and circuit decisions that the backoff lemmas are about |
| Webhook.Worker.Process | server/internal/webhook/worker.go:60-69 | the loop settles each claim in turn; a lost lease or an error does not stop it |
| Webhook.Worker.Run | server/internal/webhook/worker.go:49-71 | one cycle claims a batch and settles it |
| Webhook.DelayBounds | server/internal/webhook/worker.go:116-117 | every wait lies within [0.8, 1.2) of 2^min(n-1, 9) seconds, which itself lies between 1 and 512 seconds |
| Webhook.FailureOpensCircuitIff | server/internal/webhook/worker.go:119-126 | after a settled failure the circuit is open if and only if the claim saw at least four failures and it is not dead-lettered; the next attempt is then no earlier than the reopening |
| WebhookWitness.OpenCircuitCloses | server/internal/webhook/store.go:119-120 | counterexample: a run from the empty tables in which a failure closes the circuit that the failure before it opened, at the same instant, while the counter grows |
| WebhookRuns.EveryRunKeepsInv | server/internal/webhook/store.go:31-149 | in every run of publications, claims, settlements, takeovers, replays, retention and target changes, the invariants on references, row shapes, leases, counters and attempts hold |
| WebhookRuns.EachClaimSettledOnce | server/internal/webhook/store.go:85-97 | no claim is ever settled twice, by any worker, in any interleaving |
| WebhookRuns.SettlingWorksIff | server/internal/webhook/store.go:85-92 | a settlement has an effect if and only if the claim was not settled before and no later claim took its delivery over |
| WebhookRuns.TakenOverClaimIsInert | server/internal/webhook/store.go:110-128 | after a takeover the old worker changes neither the delivery, nor the target's counter, nor the dead letter |
| WebhookRuns.DeliveryStates | server/internal/webhook/store.go:46-49 | in every reachable state: delivering exactly with a lease, and then at least one attempt; pending with none; retry with one to seven; delivered with a time; dead-lettered with a dead letter; no dead letter without its delivery, no delivery without its event |
| WebhookRuns.FailureCounterIsStreak | server/internal/webhook/store.go:94-120 | a target's counter equals its settled failures since its last settled success |
| WebhookRuns.BoundedRetry | server/internal/webhook/worker.go:113-116 | between replays a delivery fails at most eight times; eight failures leave it dead-lettered; without takeovers it is attempted at most eight times |
| WebhookRuns.FailureAtLimitDeadLetters | server/internal/webhook/worker.go:115-115 | the first settled failure at or past the eighth attempt dead-letters, however crashes inflated the count |
| WebhookRuns.DeadLetterKeepsFirstReason | server/internal/webhook/store.go:123-126 | a dead letter keeps its first reason through replays and later failures |
| WebhookRuns.WorkerLoopIsARun | server/internal/webhook/worker.go:49-71 | what the worker's loop does to the tables is a run of the machine's steps |
| WebhookTiming.LeaseLasts | server/internal/webhook/store.go:36-59 | in every run, until a claim is settled no later batch takes its delivery before the claim's own now plus its lease |
| WebhookTiming.TakesWhatIsDue | server/internal/webhook/store.go:36-45 | a batch takes only free work of active targets with a closed circuit whose wait or lease is over; what it leaves of that comes after all it took, and then it is full |
| WebhookTiming.ClaimCarries | server/internal/webhook/store.go:46-60 | each claim carries its delivery's event and target, the batch's token, its attempt number and the target's failures as they stand; its row is leased until now plus the lease; claims come in id order |
| WebhookTiming.SettlementOutcome | server/internal/webhook/worker.go:113-128 | every settlement that takes effect: 2xx delivers, forgets the failures and closes the circuit; anything else records its code, is dead-lettered exactly when not repeatable or at the eighth attempt, and else waits its jittered backoff or the open minute |
| WebhookTiming.BackoffIsRespected | server/internal/webhook/worker.go:116-126 | in every run the first claim after a repeatable failure comes at least 0.8 * 2^min(n-1, 9) seconds later, and at least a minute later after four failures of the target |
| WebhookTiming.CircuitIsRespected | server/internal/webhook/store.go:39-41 | in every run, for the minute that a circuit is open and its target is not settled again, no batch takes its deliveries and no publication makes it one |
| WebhookTiming.PublishReaches | server/internal/store/db/outbox.go:34-45 | a publication gives each active target with a closed circuit exactly one delivery, due at once, and no other target any |
| WebhookTiming.FinishedIsKept | server/internal/webhook/retention.go:48-69 | in every run a finished delivery that is not replayed is removed only by a retention run later than its settlement by more than the days kept |
| WebhookTiming.RetentionRemovesIff | server/internal/webhook/retention.go:56-64 | retention removes exactly the finished deliveries past their days with their dead letters, and the old events nobody refers to |
| WebhookTiming.ReplayRestarts | server/internal/webhook/store.go:131-149 | a replay works exactly on a dead-lettered delivery, which is then due at once with all attempts ahead while its dead letter keeps its reason and notes the time |
| Values.DecodeInvertsEncode | server/internal/service/values.go:13-43 | an encoded value has the shape of its field's secrecy and decodes to itself under every cryptor that still knows the keys; encoding fails only for a secret without randomness |
| Rewrap.RewrapKeepsPlaintextIff | server/internal/rewrap/batch.go:53-72 | rewrapping a row keeps its plaintext if and only if the recorded version names the key that sealed it, which the target check guarantees |
| Rewrap.BatchPreserves | server/internal/rewrap/batch.go:15-87 | a committed batch moves exactly its rows to the target, sealed by the target's key, and no row loses its text |
| Rewrap.BatchShrinksStale | server/internal/rewrap/batch.go:21-23 | a batch removes exactly the rows it took from those still to do |
| Rewrap.BatchTakesTheLowest | server/internal/rewrap/batch.go:21-23 | a stale row left behind although nobody locked it comes after all that was taken, and then the batch is full |
| Rewrap.AuthenticBatchSucceeds | server/internal/rewrap/batch.go:48-56 | once every encrypted row authenticates, a batch cannot fail on malformed rows, missing keys or authentication, and leaves the table authentic |
| Rewrap.RefreshedReadsTheSame | server/internal/rewrap/batch.go:57-70 | whoever knows the keys reads a rewrapped row as before, failures included |
| Rewrap.AuthenticRowIff | server/internal/rewrap/batch.go:47-56 | a row authenticates if and only if it is sealed under its own full-size nonce by the key its positive, loaded version names, without plain text beside it; it then reads as what was sealed |
| Rewrap.RerunReachesTheSame | server/internal/rewrap/runner.go:117-150 | a campaign that crashed between batches and was run again ends with the same rows, versions and texts as one that never stopped |
| RewrapRunner.CheckInventory | server/internal/rewrap/runner.go:78-94 | walking the versions in order gives the verdict: malformed before anything else, then an unloaded version up to the target, then a version newer than the target |
| RewrapRunner.AuthenticateAll | server/internal/rewrap/preflight.go:35-76 | keyset paging reads every encrypted row exactly once in id order; success if and only if all authenticate, and otherwise the first failing row decides |
| RewrapRunner.Preflight | server/internal/rewrap/runner.go:73-97 | passes if and only if every encrypted row authenticates and none is newer than the target |
| RewrapRunner.RewrapOne | server/internal/rewrap/batch.go:47-79 | the re-read of the new ciphertext and the compare-and-swap never fail on a row that is still as it was read |
| RewrapRunner.Runner.ProcessBatch | server/internal/rewrap/batch.go:15-87 | all the rows it selected are rewrapped, or the table is unchanged |
| RewrapRunner.Runner.RunTurn | server/internal/rewrap/runner.go:118-137 | one round beside live writers keeps every text; on an authentic table its only error is missing randomness; alone it takes a full batch or all that is left |
| RewrapRunner.Runner.Drain | server/internal/rewrap/runner.go:117-150 | the table reads as if only the application had written; success leaves nothing off the target; without other writers it succeeds in as few batches as the stale rows fill, rewrapping each once |
| RewrapRunner.Runner.Run | server/internal/rewrap/runner.go:15-160 | a job id that is no UUID, a target that is not the positive current version, a batch size outside 1 to 1000, no time, or writing without confirmation or confirming a dry run is refused and writes nothing, as is a held lock; the table reads as if only writes of the given history had happened; success means an authentic table, every row scanned, and in write mode no row off the target; no progress is reported only after the configured time; no campaign ends in a verification or compare-and-swap error; a quiet, confirmed campaign over an authentic table succeeds |
| RewrapRuns.RewrapIsInvisible | server/internal/rewrap/batch.go:15-87 | under every interleaving of row locks, uncommitted writes, commits and rollbacks, each row exists and reads as if only the application had written, and the compare-and-swap conflict never occurs |
| RewrapRuns.OnlyCommitsChangeRows | server/internal/rewrap/batch.go:70-86 | a row changes only by the commit of a transaction that wrote it, or by a batch commit that moves its version to the target; failed batches change nothing |
| Resources.ColumnwiseIsRowwiseIff | server/internal/store/db/resources.sql.go:838-841 | over stored shapes, the coalesced columns read as the local row if and only if no plain local row meets an encrypted source row of another text |
| Resources.MixedShapesLoseTheOverride | server/internal/store/db/resources.sql.go:838-841 | two rows of different shapes for which the override is lost |
| Resources.BuildResourceFieldsBatch | server/internal/service/resource_fields.go:65-124 | each header, at its last occurrence, gets exactly its own effective fields in order; the batch fails only with the error of one of its resources |
| Provisioning.Service.ProvisionResource | server/internal/service/provision.go:144-236 | creates the resource and stores the given values, or fails with the first check that fails and changes nothing; the lemmas on `Provisioned` say what is stored |
| Provisioning.Service.DuplicateResource | server/internal/service/provision.go:109-142 | provisions the non-empty effective values of the original under a new alias, or changes nothing |
| Provisioning.Service.UpdateResourceField | server/internal/service/resource_update.go:34-77 | writes one validated value and the resource's stamp, or changes nothing |
| Provisioning.Service.ClearResourceFieldOverride | server/internal/service/resource_update.go:79-126 | deletes one local row of a linked resource, touching no stamp, unless the field is required and the source has no row |
| ResourceRuns.ProvisionStores | server/internal/service/provision.go:196-235 | a successful provisioning passed every field check, adds value rows only for the new resource, and each given value decodes to itself |
| ResourceRuns.DuplicateProvisions | server/internal/service/provision.go:109-142 | duplicating is provisioning an unlinked resource with the original's non-empty effective texts, under whichever loaded key seals them |
| ResourceRuns.SetValueEffect | server/internal/service/resource_update.go:52-77 | a successful edit wrote exactly the one slot its key names, with a valid text that is not empty for a required field |
| ResourceRuns.ClearEffect | server/internal/service/resource_update.go:91-124 | a successful clear removed exactly one slot of a linked resource whose source provides the field if it is required |
| ResourceRuns.EveryRunKeepsInv | server/internal/store/db/resources.sql.go:1305-1326 | in every run: links point to unlinked resources of the same tenant and definition, value rows belong to their definition's fields, keys are unique, and every stored row has its field's shape and decodes to the last valid text written there |
| ResourceChecks.AliasesStayUnique | server/migrations/00012_shared_resources.sql:44-45 | in every reachable state two resources of one tenant with equal aliases are the same resource, and every alias is well formed |
| ResourceChecks.TakenAliasChangesNothing | server/internal/service/provision.go:208-213 | in every run creating, duplicating or renaming onto an alias of the tenant that is taken changes nothing |
| ResourceChecks.CreationOutcome | server/internal/service/provision.go:144-235 | a creation succeeds exactly with an active definition, a good name and alias, a linkable source, fields that pass, a free alias and a known tenant; a taken alias and an unknown tenant fail as such; the new row is the one asked for |
| ResourceChecks.EditOutcome | server/internal/service/resource_update.go:52-77 | an edit succeeds exactly for a resource of that tenant with a text of the field's type that is not empty when required, and writes that one value and the stamp |
| ResourceChecks.ClearOutcome | server/internal/service/resource_update.go:91-124 | a clear succeeds exactly for a linked resource of that tenant whose source has a row if the field is required, and removes that one row |
| ResourceChecks.AdminStepOutcome | server/internal/httpapi/admin_actions.go:55-76 | renaming, switching and deleting a resource: each works exactly for a resource of that tenant, a rename with a well-formed alias nobody else has, a delete with no linked copies, and changes just that |
| ResourceChecks.CatalogStepOutcome | server/internal/store/db/definitions.sql.go:94-443 | adding a field or a definition works exactly with a free key, removing a field exactly without values, and every field change stamps its definition |
| ResourceChecks.FieldsAreListedInOrder | server/internal/store/db/definitions.sql.go:282-284 | the fields of a definition are listed once each, by sort order and then by key |
| ResourceChecks.TextsAreTyped | server/internal/service/values.go:13-43 | in every reachable state every stored value opens to a text of its field's type, and exactly the secrets are stored sealed |
| ResourceValues.MergedIsOverride | server/internal/store/db/resources.sql.go:838-841 | in every reachable state the four coalesced columns are the local row, or else the source row, never a mix |
| ResourceValues.BuilderShowsLastWrites | server/internal/service/resource_fields.go:84-123 | in every reachable state the builder succeeds and shows, field by field, the last local text, else the source's last text |
| MaskedValues.SecretsStayMasked | server/internal/service/values.go:9-51 | without unmasking, in every reachable state, a secret with a value shows as eight bullets whatever its text, and everything else as its effective text |
| ResourceValues.StepKeepsComplete | server/internal/service/resource_update.go:108-118 | every operation that does not demand a new field keeps a local or source value row for every required field of every resource |
| ResourceValues.EveryRunIsComplete | server/internal/service/provision.go:196-206 | the same over runs, from any complete state such as the empty one |
| ResourceValues.EmptyOverrideOnlyAtCreation | server/internal/service/provision.go:200-205 | the field check of a creation accepts an empty override of a required field the source provides, while an edit to the empty text is refused |
| ResourceValues.RequiredReadsEmptyIff | server/internal/service/provision.go:196-235 | after any successful creation a required field of the new resource reads as empty if and only if the empty text was given for it and its source provides the field, or nothing was given and the source reads as empty |
| ResourceWitness.RequiredFieldReadsEmpty | server/internal/service/provision.go:200-205 | counterexample: a run from the empty tables after which a required field of an active resource reads as empty although its source has a text |
| ResourceValues.CreatedReadsItsInput | server/internal/service/provision.go:221-235 | each field of a new resource reads as the text given for it, the empty one included, else as its source |
| ResourceValues.DuplicateIsSnapshot | server/internal/service/provision.go:109-142 | a duplicate is unlinked, of the same tenant and definition, and reads like the original in every field, inherited ones included |
| ResourceValues.DuplicateFieldErrorIff | server/internal/service/provision.go:196-206 | a duplicate never fails on the validity of a value, and fails on a required field if and only if one reads as empty |
| ResourceValues.UnlinkedIsIndependent | server/internal/service/provision.go:138-141 | no operation on any other resource changes what an unlinked resource reads |
| ResourceValues.DuplicateStaysTheSame | server/internal/service/provision.go:107-108 | over any run a duplicate reads the same until it is edited itself |
| Etag.ComputeETag | server/internal/service/resolve.go:151-169 | the copy-sort-and-stream loop hashes the text that the next three lemmas are about |
| Etag.TagIgnoresOrder | server/internal/service/resolve.go:152-156 | the tag does not depend on the order of the headers |
| Etag.TagIsInjective | server/internal/service/resolve.go:157-168 | equal hashed texts mean the same tenant, slug and stamp, and the same resources with the same status, stamps, definitions and sources |
| Resolve.ResolveTenant | server/internal/service/resolve.go:108-122 | assembles, in header order, alias, definition key and exactly the effective values of each resource, or fails if one of them does |
| Resolve.HandleResolve | server/internal/httpapi/consumer.go:58-105 | tag first, then 304 on an exact match without reading values, else the body, each from its own read |
| ResolveAnswers.AnswersAreTheTenants | server/internal/service/resolve.go:98-122 | tenant, headers and values read at any moments of a run: not found exactly without such an active tenant; otherwise a 304 for the offered tag, or a body that lists exactly the tenant's active resources, by creation and id, each with its alias, its definition's key and a map from each field key to its effective text |
| Resolve.HeaderReads | server/internal/service/resolve.go:114-120 | in every reachable state a resource resolves to the map of its field keys to effective texts |
| NotModifiedAnswers.NotModifiedIsSoundIff | server/internal/httpapi/consumer.go:88-105 | when a tag obtained with a body is answered 304 later, the cached body is the one the tables hold at that moment if and only if, since its values were read, no clear silently changed a listed resource; tenant, headers and values may be read at different instants |
| NotModifiedAnswers.SilentTextDiffers | server/internal/service/resource_update.go:120-124 | a silent clear is not made up for later: while the stamps stay, some field reads differently before it and ever after |
| ResourceWitness.StaleBodyIsKept | server/internal/httpapi/consumer.go:94-98 | counterexample: a run from the empty tables in which a body is cached, an override is cleared, and the old tag is answered 304 although a fresh body differs |
| NotModifiedAnswers.EqualTagsMeanUntouched | server/internal/service/resolve.go:98-104 | equal tags at two times mean that no listed resource, definition or source was touched in between, and that the headers are the same |
| NotModifiedAnswers.TextStep | server/internal/store/db/resources.sql.go:1305-1326 | a step that leaves the rows of a resource and of its source as they are, and is no silent clear, changes no effective text |
| NotModifiedAnswers.DefinitionStep | server/internal/store/db/definitions.sql.go:404-422 | adding, editing or removing a field always touches the definition's stamp |
| NotModifiedAnswers.ClearKeepsTags | server/internal/store/db/resources.sql.go:143-147 | clearing an override changes no tag |
| NotModifiedAnswers.ClearChangesTextIff | server/internal/service/resource_update.go:120-124 | it changes the effective text if and only if the dropped text is not the inherited one |
| Idempotency.FingerprintSeparates | server/internal/idempotency/store.go:53-61 | different operations or payloads have different fingerprints |
| Idempotency.EqualFingerprint | server/internal/idempotency/store.go:144-153 | the comparison without early exit is equality of the bytes |
| Idempotency.Store.Begin | server/internal/idempotency/store.go:63-107 | claims a free key, replays a completed, matching, unexpired record, and otherwise refuses without writing |
| Idempotency.Store.Complete | server/internal/idempotency/store.go:109-129 | succeeds if and only if the response is storable and the row is this request's own claim, and then stores exactly that response |
| IdempotencyRuns.EveryRunKeepsInv | server/internal/idempotency/store.go:63-142 | in every interleaving claims are exclusive and the committed rows are exactly those of effects not yet cleaned up |
| IdempotencyRuns.NoCommittedRecordIsProcessing | server/internal/idempotency/store.go:99-101 | no committed record is half done, so no request is ever refused as in progress |
| IdempotencyRuns.OneEffectPerRecord | server/internal/idempotency/store.go:131-142 | in every run, between two effects for one key a cleanup removed the record of the first, after it had expired |
| IdempotencyRuns.ReplayIsThatEffect | server/internal/idempotency/store.go:93-106 | in every run, every replay gives the status, type and body of the one effect whose record is live, to a request with the same fingerprint, before expiry |
| IdempotencyRuns.EffectsBalance | server/internal/idempotency/store.go:63-142 | in every run, effects for a key outnumber its cleanups by one exactly while its committed record exists |
| IdempotencyRuns.MutationsRunOnce | server/internal/httpapi/admin.go:40-78 | all of it for every run: effects for one key are apart by an expiry and a cleanup, replays repeat the live effect for the same operation and payload, and nobody is told to wait or fails on a stored response |
| IdempotencyLifetimes.RecordLivesForTtl | server/internal/idempotency/store.go:75-75 | in every run the record of an effect expires exactly its request's ttl after that request began |
| IdempotencyLifetimes.EffectsAreATtlApart | server/internal/idempotency/store.go:131-142 | in every run, between two effects for a key a cleanup ran, no earlier than the first request's begin plus its ttl |
| IdempotencyLifetimes.RetryIsAnswered | server/internal/idempotency/store.go:93-106 | in every run a read of a committed record is answered from the effect that made it: mismatch for another fingerprint, the response if it began within the ttl, expired if later |
| IdempotencyLifetimes.BeginClaims | server/internal/idempotency/store.go:63-92 | a malformed request is refused; a well-formed one claims its key exactly when no committed record has it |
| IdempotencyLifetimes.FinishAndCommit | server/internal/idempotency/store.go:109-129 | a claim is completed exactly by a storable response with randomness to seal it, and a commit makes known that response |
| Export.Repository.Create | server/internal/auditops/export.go:114-174 | a new request inserts a job and its requested entry; a repeated one adds nothing |
| Export.Repository.TakePending | server/internal/auditops/export.go:187-206 | takes the oldest pending unexpired job nobody else is taking, if any |
| Export.Repository.Process | server/internal/auditops/export.go:289-311 | stores the payload or the failure only while the job is still processing |
| Export.Repository.Consume | server/internal/auditops/export.go:217-278 | bytes are returned only for a ready, unexpired, never downloaded job, with the payload destroyed and the download recorded in the same step |
| Export.Repository.Expire | server/internal/auditops/export.go:280-287 | destroys the payloads of exactly the due unfinished or ready jobs |
| ExportRuns.EveryRunKeepsInv | server/internal/auditops/export.go:114-316 | in every interleaving a payload exists if and only if the job is ready and opens to what was stored; a job is downloaded exactly when the audit trail says so |
| ExportRuns.ConsumedAtMostOnce | server/internal/auditops/export.go:253-277 | at most one consume ever returns bytes for a job, and they are those its processor stored |
| ExportRuns.TerminalForever | server/internal/auditops/export.go:253-284 | a failed, expired or downloaded job stays so, without payload, whatever late processors do |
| ExportRuns.OneRequestEach | server/internal/auditops/export.go:149-160 | every job has exactly one requested entry, and a downloaded one exactly when it was consumed |
| ExportRuns.RetryFindsItsJob | server/internal/auditops/export.go:136-148 | a retried creation finds its job and adds nothing; the same key with another request is refused |
| ExportLifetimes.JobIsAsRequested | server/internal/auditops/export.go:114-135 | in every run every job is of the actor, key, filters and format of some request, and expires a day after it |
| ExportLifetimes.NewKeyMakesAJob | server/internal/auditops/export.go:124-160 | a request under a new key makes one job, pending or, when synchronous, processing, and one audit entry |
| ExportLifetimes.RetryIsAnswered | server/internal/auditops/export.go:136-148 | a retry is answered with its job exactly for the same filters and format, and refused as a mismatch otherwise |
| ExportLifetimes.DownloadsIff | server/internal/auditops/export.go:217-278 | in every run a download succeeds exactly for a ready job of the same actor less than a day after its request; it releases the bytes stored and leaves none |
| ExportLifetimes.TakesTheOldest | server/internal/auditops/export.go:187-206 | a worker takes the oldest pending, unexpired, unlocked job, if there is one |
| ExportLifetimes.ProcessorDecides | server/internal/auditops/export.go:289-316 | finishing stores a payload that opens to the bytes, and failing marks the job, only while it is being processed |
| ExportLifetimes.ExpiryIff | server/internal/auditops/export.go:280-287 | expiry ends exactly the jobs past their day that are not over and destroys what they hold |
| Settings.Validate | server/internal/settings/registry.go:78-125 | accepts if and only if every update is known, well-typed and in range and both cross-field rules hold of the merged values, and returns the normal forms |
| Settings.UpdateKeepsConsistent | server/internal/settings/registry.go:105-124 | an accepted update leaves every stored value normal and both rules true of the very map that is read back |
| Settings.Repository.Update | server/internal/settings/postgres.go:96-145 | succeeds only for the current revision, writes the normal forms and the next revision, and returns what a reader will see |
| Settings.NoLostUpdate | server/internal/settings/postgres.go:152-166 | an update accepted with a revision from a torn read was based on exactly the values then stored |
| Settings.RevisionCountsSuccesses | server/internal/settings/postgres.go:132-133 | revisions grow by one per success and by nothing else, and an equal revision means equal values |
| Settings.OneWinnerPerRevision | server/internal/settings/postgres.go:101-106 | of several updates that name one revision at most one succeeds |
| Settings.PolicyNeverRejected | server/internal/settings/postgres.go:23-69 | in every reachable state the session policy is the stored hours and minutes with 0 < idle <= absolute, and event retention is at least delivery retention |
| Settings.UpdateOutcome | server/internal/settings/postgres.go:96-145 | an update takes effect exactly in full context, at its revision, with known keys, numbers in range or a known locale, and both rules true of the numbers that will be read back; every number asked for is then read back and nothing else moves |
| Settings.NumbersAreInRange | server/internal/settings/registry.go:45-76 | in every reachable state each whole-number setting is read as a number within its bounds, and before any update as its default |
| Sessions.Manager.Create | server/internal/adminauth/session.go:102-147 | creates a live session with idle expiry at most absolute expiry if and only if the identity is complete, the policy usable and the token new |
| Sessions.Manager.Authenticate | server/internal/adminauth/session.go:149-164 | accepts only the token of a live session and renews just that one; refuses only if no session with that token is live |
| Sessions.Manager.Revoke | server/internal/adminauth/postgres.go:20-31 | revokes a session that is not yet revoked, once |
| Sessions.Manager.RevokeOther | server/internal/adminauth/governance.go:52-67 | revokes another live session, never the current one |
| Sessions.Manager.RevokePrincipal | server/internal/adminauth/governance.go:69-79 | revokes exactly the principal's other live sessions and counts them |
| Sessions.IdleNeverPassesAbsolute | server/internal/adminauth/postgres.go:53-57 | under any mix of policy changes, logins, uses and revocations idle expiry never passes absolute expiry, and tokens stay unique |
| Sessions.RevocationIsPermanent | server/internal/adminauth/postgres.go:21-23 | a revoked session never changes again, absolute expiry never moves, and the last use never goes back |
| Sessions.DeadStaysDead | server/internal/adminauth/postgres.go:56-57 | a session that is not live at an instant is never live again from then on |
| Sessions.UnusedSessionLapses | server/internal/adminauth/session.go:128-147 | over any run a session that is not used is accepted exactly while not revoked and less than the idle time after its login |
| Sessions.UsedSessionLapses | server/internal/adminauth/postgres.go:45-57 | after its last use a session is accepted exactly while not revoked, before its absolute end and within that use's whole idle seconds |
| Sessions.PrincipalIsOut | server/internal/adminauth/governance.go:70-74 | after a principal is revoked none of its other sessions ever authenticates again |
| Sessions.SettingsPolicyIsUsable | server/internal/adminauth/session.go:166-179 | the policy of any reachable settings is never rejected, and its idle time is a whole number of seconds |
| Usage.AggregateEvents | server/internal/usage/collector.go:125-148 | one pass computes the daily counts and last uses that the lemmas below are about |
| Usage.AggregateCounts | server/internal/usage/collector.go:134-145 | a key has a row if and only if it has an event, and the row holds the numbers of its limited and unlimited events |
| Usage.BatchingIsUnobservable | server/internal/usage/collector.go:83-120 | for every split of the events into flushes the daily table is the one aggregation of them all |
| Usage.LatestIsMax | server/internal/usage/collector.go:131-133 | the batch's last use of a client is the latest of its events |
| Usage.Collector.Record | server/internal/usage/collector.go:56-65 | never blocks; recorded events are flushed, queued or dropped, and a full queue drops exactly the new one |
| Usage.Collector.Flush | server/internal/usage/collector.go:83-123 | drains everything, merges one aggregate into the daily table, and keeps counts and last uses equal to those of all flushed events; a stored last use moves only when missing or more than a minute behind, to the time of a flushed event |
| Sql.LimitKeepsTheFirst | server/internal/webhook/store.go:44-45 | ORDER BY with LIMIT keeps rows that come before every row it drops |
| Sql.PageAfterCursor | server/internal/rewrap/preflight.go:39-41 | the rows after the cursor are the rest of the whole ordered list |

## Left out

- RateLimit.MemoryCall: computes in exact integers (sixty billion units to a token); the rounding of floating point, and of the numbers the script stores as text, is not modelled.
- RateLimit.LuaCall: the server's clock and key expiry are parameters; its connection and the parsing of malformed replies are left out.
- Webhook.Delay: takes jitter as a real in [0, 1) and truncates exactly, instead of rounding a float.
- Webhook.Worker.Deliver: name resolution, rendering, signing and sending are one arbitrary outcome per attempt.
- Webhook.DeliveryStore.RunRetentionOnce: a day is 24 hours, as in UTC; other retention runs and claims come before or after it, not in the middle.
- RewrapRunner.Runner.Run: database errors, telemetry, the counts of the inventory, the report and the advisory lock's release are left out; the campaign deadline is the end of the given rounds.
- RewrapRunner.Runner.ProcessBatch: one batch is atomic here; its row-by-row interleaving with the application is in `RewrapRuns`.
- Resources.ListFields: orders keys by code point, not by a database collation; nothing proved depends on that order beyond its being one.
- Provisioning.AliasTaken: compares aliases exactly; their format makes the index's trimming and case folding the identity.
- ResourceRuns.Next: each admin operation is one atomic step; deleting tenants and definitions, hostnames, hints and icons are left out.
- Resolve.HandleResolve: the hostname or slug lookup is a parameter; headers other than the tag and cache validator, JSON and telemetry are left out.
- NotModifiedAnswers.NotModifiedIsSoundIff: assumes fresh stamps, and compares the cached body with the one built from a single read at the instant of the 304's header read; answers whose own reads straddle a later write are not compared.
- Idempotency.Store.Begin: the race with a cleanup between its two statements is the parameter `vanished`.
- IdempotencyRuns.Purges: rows that expired at the same instant are removed in no particular order, as in the query.
- Export.Repository.Create: validation of filters and actor is the parameter `valid`; encoding to CSV and JSON lines, archiving and the audit columns are left out.
- Settings.Validate: map iteration order is arbitrary, so which of several errors is reported is not specified.
- Sessions.Session: roles, permissions, labels and CSRF tokens are left out, and instants are not rounded to the database's microseconds.
- Usage.Collector.Flush: store calls succeed and the clients' rows exist; a failed call loses that part of the batch in the original.
- Usage.DayOf: the day's text is its number; years outside 0 to 9999 are not distinguished by the original's format.
- Audit partition maintenance: its logic is in a database function that is not part of this model.
- OIDC login, PKCE, CSRF, bootstrap and break-glass access: library protocols and easy checks.
- HTTP routing, JSON and CSV encoding, migrations, probes, telemetry, the user interface and command-line wiring: no hard property.
- Host name, base path and date-range validators and static permission tables: true but easy.
