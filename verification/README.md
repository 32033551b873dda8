# SkillHub: models and proofs

Dafny models of the parts of the SkillHub server and TypeScript client whose behaviour depends on state, time,
interleaving or exact arithmetic, with proofs of what they promise. `dafny verify dfyconfig.toml` checks
everything.

The models follow the code. State that the code rewrites (bucket tables, repository tables, eviction queues) is a
class whose methods are proved against functions and predicates on values; the theorems about whole runs are lemmas
about those. Clocks, random values, hashes and the outcomes of calls that can fail are parameters.

- **Rate limiters** (`TokenBucket`, `MemoryLimiter`, `RedisLimiter`, `LimiterEquivalence`, `RedisEquivalence`). The
  in-memory limiter with TTL cleanup and forced eviction, and the atomic Redis script over its flat key space. An
  exact ledger of the credit of a key, a bound on the requests admitted in every window, a bound that survives clocks
  running backwards, and the agreement of both limiters with one that never forgets a key: what the in-memory limiter
  forgets is unobservable exactly when its table is not bounded and the TTL covers a full refill, the expiry of the
  Redis keys exactly when the whole seconds of the TTL and one millisecond do.
- **Agent CI** (`AgentCI`, `Executor`, `Gates`, `Protocol`, `TriggeredChecks`, `RunRecords`, `ExecutorSteps`). The
  executor of one run, the gate rules, the state machine of any number of triggers and workers interleaving at
  repository calls, which checks a trigger inserts, what the record of a run says in every reachable state, and how the
  executor is a sequence of the machine's steps.
- **Namespaces and account merge** (`Membership`, `MembershipService`, `AccountMerge`). The one-owner invariant over
  every sequence of operations with failing repository calls and exactly what breaks it, the conservation of bindings,
  tokens and roles in a merge and exactly when it succeeds, and the acyclicity of merge links.
- **Credentials** (`Device`, `Lockout`, `Tokens`, `Scopes`). The device authorization grant as interleaved steps (the
  pending answer is that of section 3.5 of RFC 8628), the bound on password guesses, the unique active token names,
  and the scope printer and parser.
- **Exact algorithms** (`Metrics`, `Paging`, `Search`, `Review`, `Slug`, with `Text` for strings). The bounded metrics
  tables, the page iterators against servers that cap the page size, the community search builder with a small
  semantics of its queries, optimistic locking of review tasks, and slug normalization.

Where the code does not do what its comments or names suggest, the model does what the code does, and a lemma says
when it meets the intention:

- The Redis script gets the whole seconds of the TTL, so a TTL that covers a refill is neither enough for it nor
  needed: `RedisEquivalence.ExpiryUnobservableIff` has its own condition, `ScriptRefillsEarly` and
  `TtlItselfDecidesNothing` the inputs.
- A pipeline run is meant to be executed, but its trigger overwrites it as running, so a run that nobody has claimed
  until then never is: `RunRecords.ClaimableIff`, with `RunRecords.TriggerEndsUnclaimed` as such a run. One claimed
  before that can be finalized before all its checks are there (`ExecutorSteps.CompletedWithPendingCheck`), and its
  result is overwritten by its trigger: `RunRecords.CompletedRecordAndGates` says when a COMPLETED record passes the
  gates, `RunRecords.OverwrittenIff` when a record is final.
- A worker that has claimed a run but cannot read it back goes on to the next one; the run says RUNNING for ever
  (`Protocol.UnreadClaimNeverRuns`).
- A namespace is meant to have one owner. A creation, a deletion, or a transfer without a transactor that stops after
  its first write leaves it without any; an ignored look-up failure when it is created, a migration that stops between
  its two writes, and the Postgres upsert of memberships, which is keyed by namespace and user and leaves the old row,
  give it a second one: `Membership.OperationKeepsOwnerIff` says exactly when. What has no owner is there for good
  (`Membership.LostForGood`), and a failed migration is not repeated (`AccountMerge.HalfMigratedMerge`).
- A merge is meant to move tokens and credentials. The Postgres inserts carry no row id, so an existing token meets
  its unique hash and an existing credential its unique user name; and were rows rewritten, tokens of the same name
  would still meet the unique index on active names. `AccountMerge.Service.ConfirmMerge` says under which saves and
  writes it succeeds, and that it fails every time it is repeated otherwise; `AccountMerge.OneTokenIsNotMerged` and
  `AccountMerge.SameNameIsNotMerged` are the smallest cases.
- A failure to save the counter of wrong passwords is ignored: such guesses are free
  (`Lockout.LostGuessesAreFree`), and `Lockout.GuessBound` counts them apart.
- The claim marker of a device code lives one minute. `Device.GrantedAgainIff` says exactly in which states a second
  token can be had once it has expired, and `Device.LateAuthorizationGrantsTwice` is such a run.
- Token rotation looks the name up untrimmed and creates the token trimmed; `Tokens.RotateSucceedsIff` says for
  which names it works. It is two writes: `Tokens.RotateLosesIff` says when the old token is lost.
- The iterators driven by a total trust their own page size, which the server may have capped: `Paging.TotalRunYields`
  says exactly when the list is complete, `Paging.CapTruncates` when it is not.
- A withdrawal deletes whatever has become of the review task it read: `Review.DecisionVanishesIff` says which
  decided tasks can vanish, and `Review.DecisionCanVanish` is such a run.
- Scopes with commas or outer quotes do not survive the scope printer and parser; `Scopes.RoundTrip` has both
  directions.
- Metric labels are split at colons; `Metrics.LabelsRoundTrip` has both directions.

## Model

| member | source | states |
|---|---|---|
| TokenBucket.Refill | server/internal/http/middleware/ratelimit.go:102-107 | A refill never exceeds the capacity, and below it adds exactly rate times elapsed. |
| MemoryLimiter.RateLimiter.Allow | server/internal/http/middleware/ratelimit.go:91-121 | One request is one step of the limiter: refill or creation with eviction, decision, and the new table. |
| MemoryLimiter.RateLimiter.MakeRoom | server/internal/http/middleware/ratelimit.go:95-98 | Before an insertion the stale buckets go, then, if the table is full, one bucket seen least recently. |
| MemoryLimiter.RateLimiter.EnforceMaxBuckets | server/internal/http/middleware/ratelimit.go:123-145 | From any table: the stale buckets go, and from one still full exactly one more, the least recently seen; a table with room loses nothing. |
| MemoryLimiter.RateLimiter.CleanupLocked | server/internal/http/middleware/ratelimit.go:147-157 | Exactly the buckets idle for longer than the TTL are removed; none without a TTL. |
| MemoryLimiter.TableBounded | server/internal/http/middleware/ratelimit.go:123-145 | With a bound on the table, no state of any run has more buckets than that. |
| MemoryLimiter.ForcedVictimIsOldest | server/internal/http/middleware/ratelimit.go:128-144 | A bucket that is not stale is evicted only from a full table and only as its least recently seen. |
| MemoryLimiter.RunKeepsRange | server/internal/http/middleware/ratelimit.go:91-121 | In every run with a monotone clock all buckets hold between nothing and the capacity and lie in the past. |
| MemoryLimiter.LedgerBalances | server/internal/http/middleware/ratelimit.go:91-156 | For every key and run: tokens held + admitted + credit cut off above the capacity + tokens forfeited by eviction = credit granted, exactly. |
| MemoryLimiter.WindowBound | server/internal/http/middleware/ratelimit.go:91-156 | In every window of every run, admitted <= capacity * (1 + evictions of the key in it) + rate * its length. |
| RedisLimiter.RateLimiter.Eval | server/internal/adapters/redis/ratelimit.go:139-165 | The script over the flat key space is one step on the cells; expired keys count as missing; a TTL of no seconds fails before any write. |
| RedisLimiter.WriteFrame | server/internal/adapters/redis/ratelimit.go:140-163 | Writing the two keys of a bucket changes that bucket's cell and no other: key suffixes never collide. |
| RedisLimiter.SkewBound | server/internal/adapters/redis/ratelimit.go:148-163 | While no key expires, for any clock readings, even decreasing ones: admissions up to an admitted request <= capacity + rate * (its reading - the first). |
| LimiterEquivalence.CleanupUnobservableIff | server/internal/http/middleware/ratelimit.go:123-157 | For every setting: forgetting changes no decision of any run if and only if the capacity is 0, or the table is not bounded and ttl <= 0 or ttl * rate >= capacity. |
| LimiterEquivalence.CoveredTtlUnobservable | server/internal/http/middleware/ratelimit.go:95-118 | If the TTL covers a full refill, the limiter decides every request of every trace like one that never forgets. |
| LimiterEquivalence.UncoveredTtlObservable | server/internal/http/middleware/ratelimit.go:147-157 | If it does not, some trace gets a decision the limiter that never forgets would not give. |
| LimiterEquivalence.BoundObservable | server/internal/http/middleware/ratelimit.go:123-145 | A bound on the table is always observable: some run forces out a drained bucket, and its next request is admitted. |
| RedisEquivalence.ExpiryUnobservableIff | server/internal/adapters/redis/ratelimit.go:97-103 | For every capacity, rate >= 0 and positive number of seconds: key expiry changes no decision of any run if and only if (1000 * seconds + 1) ms of refill cover the capacity. |
| RedisEquivalence.CoveredExpiryUnobservable | server/internal/adapters/redis/ratelimit.go:139-163 | If they do, the script decides every request of every run on a shared clock like the limiter that never forgets. |
| RedisEquivalence.ScriptRefillsEarly | server/internal/adapters/redis/ratelimit.go:97-103 | A run of six requests, with capacity 3, rate 2 and one whole second, whose last request the script admits and the ideal limiter refuses. |
| RedisEquivalence.TtlItselfDecidesNothing | server/internal/adapters/redis/ratelimit.go:97-103 | ttl * rate >= capacity is neither sufficient nor necessary for the script: settings where one limiter forgets unnoticed and the other does not, both ways. |
| RedisEquivalence.LimitersAgree | server/internal/adapters/redis/ratelimit.go:139-163 | On a shared monotone clock, in-memory limiter, Redis script and ideal limiter decide every request alike when both exact conditions hold. |
| AgentCI.ListedInOrder | server/internal/adapters/postgres/agentci_repo.go:312-322 | The checks listed for a run are rows of the table, in the order of their ids. |
| AgentCI.CountAll | server/sdk/skillhub/agentci/service.go:273-283 | Counting the rows whose status is among wanted ones covers the list when every status is wanted. |
| Executor.Service.UpdateCheckStatus | server/sdk/skillhub/agentci/service.go:210-235 | Only the status of the named row changes; a missing row changes nothing. |
| Executor.Service.MarkCheck | server/sdk/skillhub/agentci/service.go:171-207 | The row ends with the status and the summary, after two writes; nothing else changes. |
| Executor.Service.FinalizePipelineRun | server/sdk/skillhub/agentci/service.go:262-310 | The counts are those of the run's checks, an errored check counts as failed, and the run fails exactly when that count is positive. |
| Executor.Service.ExecuteCheck | server/internal/adapters/agentrunner/local_runner.go:684-722 | A pending check ends skipped without a runner, failed on a runner error or an errored result, else with the runner's verdict. |
| Executor.Service.ExecutePipelineRun | server/internal/adapters/agentrunner/local_runner.go:668-729 | With nobody else at the tables, exactly the pending checks of the run change, each to the status its runner decides, and the run is finalized over them. |
| Executor.EndsAsItsRunnerSays | server/internal/adapters/agentrunner/local_runner.go:668-766 | A check without a type, or with the type "deterministic", goes to the local deterministic runner if there is one, any other to the runner of its type; it is skipped without one, and else passed, failed, skipped or left running exactly by what that runner says or that it breaks down. |
| Executor.RunFailsByRunner | server/internal/adapters/agentrunner/local_runner.go:668-766 | The run is failed iff some check has a runner that breaks down or says failed or error. |
| Executor.ExecutionOutcome | server/internal/adapters/agentrunner/local_runner.go:668-729 | Executed alone from all checks pending: all end passed, failed or skipped, the three counts add up to their number, the run is failed iff some check is. |
| Executor.CompletedRunMeetsGates | server/sdk/skillhub/agentci/service.go:542-575 | The checks of a run completed that way satisfy all-passed and no-critical, and required-passed iff some blocking check passed. |
| Gates.EvaluateGatePolicy | server/sdk/skillhub/agentci/service.go:542-575 | The loop with early returns computes the rule's verdict, stated with quantifiers over the checks. |
| Gates.EvaluateGates | server/sdk/skillhub/agentci/service.go:473-528 | The gate is passed iff the verdict of every enabled policy holds, and there is one result per enabled policy, in order. |
| Gates.ChecksForGate | server/sdk/skillhub/agentci/service.go:489-497 | The checks a gate looks at are those of the release, else of the version, else the skill's latest. |
| Gates.VerdictPermutation | server/sdk/skillhub/agentci/service.go:542-575 | The order of the checks does not matter to any rule. |
| Gates.VerdictConcat | server/sdk/skillhub/agentci/service.go:542-575 | All-passed and no-critical are conjunctions over concatenated lists; required-passed needs no blocking failure in either and a pass in one. |
| Gates.BlockingFailureFailsAll | server/sdk/skillhub/agentci/service.go:542-575 | One failed blocking check fails all three rules, whatever else is listed. |
| Gates.VerdictOfOne | server/sdk/skillhub/agentci/service.go:542-575 | The verdict of each rule on a single check, by its status and whether it blocks. |
| Gates.IndifferentCheck | server/sdk/skillhub/agentci/service.go:542-575 | Which checks leave a rule's verdict as it is, whatever else is listed. |
| Gates.NoCriticalIgnoresBlocking | server/sdk/skillhub/agentci/service.go:565-571 | The no-critical rule does not look at whether a check blocks. |
| Gates.GateOfOne | server/sdk/skillhub/agentci/service.go:499-515 | A gate of one policy: a disabled one asks for nothing and gives no result. |
| Gates.GateConcat | server/sdk/skillhub/agentci/service.go:499-515 | A gate is the conjunction of its policies and its results theirs in a row. |
| Gates.PassedIffResults | server/sdk/skillhub/agentci/service.go:499-515 | A gate has passed iff every result says so. |
| Protocol.StepKeepsInv | server/sdk/skillhub/agentci/service.go:61-163 | Every repository call of every trigger and worker keeps the protocol invariant, failing calls and lost answers included. |
| Protocol.ClaimedAndRunAtMostOnce | server/internal/adapters/postgres/agentci_repo.go:256-268 | In every interleaving a run is claimed at most once and a check is handed to a runner at most once. |
| Protocol.StepChangesStatus | server/sdk/skillhub/agentci/service.go:210-235 | A step changes a check's status by one of PENDING to RUNNING, RUNNING to terminal, PENDING to SKIPPED, or not at all, and nothing else of it. |
| Protocol.StatusOnlyAdvances | server/internal/adapters/agentrunner/local_runner.go:668-729 | Over every continuation statuses only advance, so a terminal status is final. |
| Protocol.FailedGateStaysClosed | server/sdk/skillhub/agentci/service.go:473-575 | Once a blocking check of a version or release has failed, all three rules fail for it in every later state. |
| Protocol.FinishedUnclaimedNeverRuns | server/sdk/skillhub/agentci/service.go:146-151 | A run unclaimed when its trigger ends is never claimed and its checks stay untouched. |
| Protocol.UnreadClaimNeverRuns | server/internal/adapters/postgres/agentci_repo.go:256-268 | When the claimed run cannot be read back, the run says RUNNING for ever, is claimed no second time, and its checks stay PENDING without reaching a runner. |
| Protocol.QueueBound | server/cmd/skillhub-worker/main.go:127-154 | In every interleaving a worker holds at most ten runs besides the one it executes. |
| TriggeredChecks.TriggerInsertsSteps | server/sdk/skillhub/agentci/service.go:95-151 | In every interleaving, the checks of the run a trigger has created are those of its first steps in order, each with the trigger's version and release and the step's name and runner type, blocking unless the step says that it does not; once the trigger has ended there is one for each step. |
| TriggeredChecks.GatesSeeTriggered | server/sdk/skillhub/agentci/service.go:124-142 | Each of them is among the checks that the gates of that version and of that release look at. |
| TriggeredChecks.TriggerEndsWithCount | server/sdk/skillhub/agentci/service.go:145-154 | The trigger's last write makes the record RUNNING with as many checks as steps and no counts. |
| RunRecords.ClaimableIff | server/internal/adapters/postgres/agentci_repo.go:244-268 | In every reachable state, whatever the times of creation, a run that nobody has claimed is claimed in some continuation whose polls answer the ten oldest PENDING runs, if and only if its row still says PENDING; and no continuation at all claims it otherwise. |
| RunRecords.OldestRuns | server/internal/adapters/postgres/agentci_repo.go:244-254 | In every state there is such an answer, and it is empty only if no run is PENDING. |
| RunRecords.TriggerEndsUnclaimed | server/sdk/skillhub/agentci/service.go:146-151 | A reachable run in which the trigger ends with its run RUNNING, unclaimed and its check PENDING, which is therefore never executed. |
| RunRecords.AfterKeepsRecorded | server/sdk/skillhub/agentci/service.go:262-310 | In every interleaving, failing calls and lost answers included, finalized rows and counts in progress agree with the checks, as far as those have ended. |
| RunRecords.RecordTellsChecks | server/sdk/skillhub/agentci/service.go:262-310 | In every reachable state a FAILED record has a FAILED check and a COMPLETED one none, and its three counts add up to the number of its checks iff none of them is PENDING or RUNNING. |
| RunRecords.CompletedRecordAndGates | server/sdk/skillhub/agentci/service.go:542-575 | In every reachable state a COMPLETED record passes no-critical, all-passed iff no blocking check of it is PENDING or RUNNING, and required-passed iff one has passed. |
| RunRecords.OverwrittenIff | server/sdk/skillhub/agentci/service.go:146-151 | In every reachable state a COMPLETED or FAILED record can still be overwritten if and only if its trigger is in flight. |
| ExecutorSteps.CheckInARow | server/internal/adapters/agentrunner/local_runner.go:684-722 | A worker that executes a check without interruption takes it, by steps of the protocol, to the status the executor gives it, and touches no other row. |
| ExecutorSteps.ExecutedInARow | server/internal/adapters/agentrunner/local_runner.go:668-729 | From any reachable state, a worker that executes a claimed run without interruption leaves the checks and the record that the executor's contract promises. |
| ExecutorSteps.CompletedWithPendingCheck | server/internal/adapters/agentrunner/local_runner.go:668-729 | A reachable run finalized before its trigger has inserted the second check: COMPLETED, with a PENDING blocking check, and all-passed fails. |
| MembershipService.Service.CreateNamespace | server/sdk/skillhub/namespace/service.go:109-162 | The tables after a creation, for every outcome of the look-up and of both writes: a failing look-up is ignored and the insert then hits the namespace that has the slug. |
| MembershipService.Service.DeleteNamespace | server/sdk/skillhub/namespace/service.go:260-309 | Only the owner of a namespace without dependencies deletes it; members go first, the namespace second, each write may fail. |
| MembershipService.Service.AddMember | server/sdk/skillhub/namespace/members.go:58-115 | Exactly when a member is added, under which role, and that nothing else changes. |
| MembershipService.Service.RemoveMember | server/sdk/skillhub/namespace/members.go:118-164 | Exactly when a member is removed; never the owner. |
| MembershipService.Service.UpdateMemberRole | server/sdk/skillhub/namespace/members.go:167-227 | Exactly when a role changes; never to or from OWNER. |
| MembershipService.Service.TransferOwnership | server/sdk/skillhub/namespace/members.go:230-287 | Exactly when ownership moves, self-transfer included, and what a failing write leaves with and without a transaction. |
| Membership.HandoverKeepsOwner | server/sdk/skillhub/namespace/members.go:255-283 | Demoting the owner and then promoting a member, possibly the same one, leaves one owner everywhere. |
| Membership.HalfHandoverLosesOwner | server/sdk/skillhub/namespace/members.go:255-283 | The first of the two writes alone leaves the namespace without an owner. |
| MembershipService.Service.BatchAddMembers | server/sdk/skillhub/namespace/members.go:343-415 | The table and the three buckets after the batch, for any outcomes of the look-ups and saves. |
| Membership.BatchMembers | server/sdk/skillhub/namespace/members.go:374-413 | After a batch exactly the earlier members and the users some valid entry lets join are members; earlier roles stay, and the first such entry gives the role. |
| Membership.BatchReports | server/sdk/skillhub/namespace/members.go:374-413 | Every entry of a batch lands in exactly one bucket; the added ones are the new rows, no owner among them, and those reported as existing are members. |
| Membership.BatchRejections | server/sdk/skillhub/namespace/members.go:374-413 | An entry is rejected for asking for OWNER or for a failing repository call. |
| MembershipService.Service.MigrateMemberships | server/sdk/skillhub/namespace/merge_migrator.go:23-58 | The loop rewrites the rows as the migration is specified up to where a write failed, for a save that moves the row and for one keyed by namespace and user; it succeeds iff it is complete, iff there are as many writes as rows of the secondary and roles to be raised; otherwise it stops exactly where they end. |
| MembershipService.RaisesIff | server/sdk/skillhub/namespace/merge_migrator.go:38-45 | By name: in which namespaces the migration takes the extra write that raises the primary's role. |
| Membership.MigrationTakesHigherRole | server/sdk/skillhub/namespace/merge_migrator.go:23-73 | After a complete migration the primary has the higher priority of the two in each namespace, under both kinds of save; other users keep their roles. |
| Membership.MigrationGivesRole | server/sdk/skillhub/namespace/merge_migrator.go:23-73 | By name: after a complete migration the primary is OWNER where either user was, else ADMIN where either was, else MEMBER where either was, else what it was or what the secondary was. |
| Membership.MigrationMovesRows | server/sdk/skillhub/namespace/merge_migrator.go:48-54 | When the save moves the row, a complete migration leaves the secondary no membership, and the primary is a member wherever either was. |
| Membership.MigrationKeepsOwnerIff | server/sdk/skillhub/namespace/merge_migrator.go:23-58 | A migration, stopped anywhere, leaves one owner unless the secondary was the owner and either its row is still to be deleted or it was inserted anew for a primary that was no member. |
| Membership.OperationKeepsOwnerIff | server/sdk/skillhub/namespace/service.go:109-162 | Each operation, whichever calls fail, keeps the one owner of a namespace, or gives a new row its owner, if and only if it is none of the breaking ones: half a creation, half a deletion, half a transfer without a transaction, a creation by another user after a failed look-up, a breaking migration. |
| Membership.LosingLeavesNobody | server/sdk/skillhub/namespace/service.go:137-309 | A namespace that had one owner, or none yet, ends with nobody exactly by a half-done creation, deletion or transfer. |
| Membership.OperationKeepsNoOwnerIff | server/sdk/skillhub/namespace/members.go:58-287 | A namespace without an owner gets one if and only if the operation is a creation that hits it. |
| Membership.StrangersChangeNothing | server/sdk/skillhub/namespace/members.go:58-415 | Over every sequence of calls by users who are neither OWNER nor ADMIN of the namespace, nor its OWNER where that is asked, nothing changes. |
| Membership.ManagersChangeMembers | server/sdk/skillhub/namespace/members.go:58-227 | Where no call fails, a member is added, removed or changed iff the namespace is an active team and the caller is OWNER or ADMIN. |
| Membership.RunKeepsOwners | server/sdk/skillhub/namespace/members.go:58-415 | In every serial sequence of operations that break nothing, every namespace has exactly one owner as long as it has a row. |
| Membership.SmoothBreaksNothing | server/sdk/skillhub/namespace/members.go:255-287 | Operations that no failing call leaves half done, whose look-up does not fail and whose migration moves rows, break nothing. |
| Membership.LostOwnerStaysLost | server/sdk/skillhub/namespace/members.go:118-287 | Over every sequence, a namespace that lost its owner gets none again without a creation that hits it. |
| Membership.OwnsByFailedLookup | server/sdk/skillhub/namespace/service.go:117-120 | A creation hits a namespace that exists only when its look-up of the taken slug fails. |
| Membership.LostForGood | server/sdk/skillhub/namespace/service.go:137-309 | While look-ups do not fail, what a half-done creation, deletion or transfer leaves stays over every sequence: the row with its slug, and no owner. |
| Membership.HalfCreationIsOwnerless | server/sdk/skillhub/namespace/service.go:137-152 | From no namespaces at all, a creation whose member is not saved leaves an active team that nobody owns. |
| Membership.OwnerLeavesIff | server/sdk/skillhub/namespace/members.go:118-287 | A user stops being an owner if and only if the members are deleted, the user hands over, or the user's memberships are migrated away. |
| Membership.HalfMigrationLeavesTwo | server/sdk/skillhub/namespace/merge_migrator.go:38-48 | After a migration stopped between its writes both users own the namespace, and the secondary stays an owner over every sequence in which nothing ends that ownership. |
| AccountMerge.Service.InitiateMerge | server/sdk/skillhub/auth/merge.go:58-129 | Exactly when a request is recorded: two different active users, none pending for the secondary, not both with a password. |
| AccountMerge.Service.CheckConfirm | server/sdk/skillhub/auth/merge.go:132-181 | All checks pass exactly for a pending, unexpired request of that primary with the right token and two active users. |
| AccountMerge.Service.ReassignBindings | server/sdk/skillhub/auth/merge.go:183-193 | All bindings of the secondary end at the primary iff the writes suffice; a failing write leaves some moved and no binding lost. |
| AccountMerge.Service.ReassignTokens | server/sdk/skillhub/auth/merge.go:195-208 | All tokens of the secondary end at the primary, with the subject of user tokens, iff the writes suffice and the store takes them: none has the name of an active token of the primary, or, where existing tokens cannot be saved, there are none. Active names stay unique wherever it stops, and what could not be saved still cannot. |
| AccountMerge.MergeKeepsOneActiveIff | server/migrations/001_users_auth.sql:73-74 | With all tokens moved, the names of a user's active tokens are still unique iff no active token of the secondary has, up to case, the name of one of the primary. |
| AccountMerge.Service.MergeRoles | server/sdk/skillhub/auth/merge.go:210-238 | The primary's roles become the union of both without duplicates, the secondary has none, other users keep theirs. |
| AccountMerge.Service.ConfirmMerge | server/sdk/skillhub/auth/merge.go:132-280 | Success comes exactly for a confirmable request whose tokens and credential the store can save, with enough writes: the primary then has its own e-mail address, or else the secondary's, its own credential, or else the secondary's, all bindings and all tokens, user tokens acting for it, and both users' roles once each; the memberships are migrated. Without those it fails, each time it is repeated; a failed migration leaves the secondary merged and the request completed, so it is not repeated; a refused confirmation changes nothing; the link and name invariants stay. |
| AccountMerge.OneTokenIsNotMerged | server/internal/adapters/postgres/auth_extra_repo.go:15-44 | With the Postgres insert the merge of a secondary with one token fails, and fails again, however many writes succeed. |
| AccountMerge.SameNameIsNotMerged | server/migrations/001_users_auth.sql:73-74 | Even where rows are rewritten, users with active tokens "CI" and "ci" cannot be merged. |
| AccountMerge.MergeTwice | server/sdk/skillhub/auth/merge.go:132-280 | For two users with any tokens: the first confirmation succeeds iff the tokens can be saved and the writes suffice; if they cannot, it fails twice. |
| AccountMerge.HalfMigratedMerge | server/sdk/skillhub/auth/merge.go:256-277 | A merge of a namespace's owner into a member with one write too few: both own the namespace, and it cannot be confirmed again. |
| AccountMerge.BindingsConserved | server/sdk/skillhub/auth/merge.go:183-193 | A merge keeps the number and the keys of bindings; the primary has exactly both users' bindings, the secondary none. |
| AccountMerge.MergeExtendsOrder | server/sdk/skillhub/auth/merge.go:256-270 | Merging an active user into another extends the order of merges, in which every link leads to a later merge or an unmerged user. |
| AccountMerge.LinksTerminate | server/sdk/skillhub/auth/merge.go:147-174 | Following merge links from any user ends at a user that is not merged, within as many links as there were merges. |
| AccountMerge.NoCycle | server/sdk/skillhub/auth/merge.go:256-270 | No merged user is reached from itself. |
| Device.Service.GenerateDeviceCode | server/sdk/skillhub/auth/device.go:89-126 | The call is its two steps in a row; a failing write leaves what came before. |
| Device.Service.AuthorizeDeviceCode | server/sdk/skillhub/auth/device.go:129-161 | The call is its steps in a row; it succeeds exactly for a pending code, or one the same user has authorized. |
| Device.Service.PollToken | server/sdk/skillhub/auth/device.go:164-203 | The call is its steps in a row; exactly when it answers pending, expired or with a token, and for which user. |
| Device.TokenUserSubmittedCode | server/sdk/skillhub/auth/device.go:129-203 | In every interleaving, whatever expires, the user of a returned token submitted the one user code handed out with that device code. |
| Device.OneTokenPerCode | server/sdk/skillhub/auth/device.go:164-203 | In every interleaving a device code yields at most one token, if its claim marker outlives the processes working on the code. |
| Device.OneTokenWhileMarked | server/sdk/skillhub/auth/device.go:164-203 | If no claim marker of a device code expires, it yields at most one token. |
| Device.GrantedAgainIff | server/sdk/skillhub/auth/device.go:175-197 | Once a code has yielded a token and its marker is gone, some continuation yields another iff the code's record is not used up or some process is about to save, claim or return it. |
| Device.SettledForever | server/sdk/skillhub/auth/device.go:129-203 | A settled code stays settled and yields no token, in every continuation. |
| Device.FailedCallChangesNothing | server/sdk/skillhub/auth/device.go:89-203 | A store call that fails leaves the store as it is. |
| Device.LateAuthorizationGrantsTwice | server/sdk/skillhub/auth/device.go:143-147 | A run in which two authorizers read the same pending code and two users get tokens for it after the marker expired. |
| Lockout.Service.Login | server/sdk/skillhub/auth/local.go:129-191 | What login answers and what it does to the counter and the lock of fifteen minutes, in every case, with the save failing or not. |
| Lockout.FiveFailuresThen | server/sdk/skillhub/auth/local.go:147-164 | After the fifth saved failure every login is answered locked for fifteen minutes, whatever the password and however often; from that instant on the right password of an active user logs in. |
| Lockout.TryAll | server/sdk/skillhub/auth/local.go:147-164 | Over any logins with wrong passwords, those counted as compared are those answered as invalid credentials. |
| Lockout.CounterCountsGuesses | server/sdk/skillhub/auth/local.go:147-164 | Without a successful login the counter is the number of passwords compared less the lost saves, since an expired lock does not reset it. |
| Lockout.GuessesWaitForLocks | server/sdk/skillhub/auth/local.go:147-164 | From the fifth saved guess on each further saved one waits out a whole lock. |
| Lockout.GuessBound | server/sdk/skillhub/auth/local.go:147-164 | Wrong passwords compared up to a time number at most 5 + the whole quarters of an hour since the fifth saved one + the lost saves. |
| Lockout.FifthGuessExists | server/sdk/skillhub/auth/local.go:147-164 | As soon as five guesses have been compared and saved there is a fifth one. |
| Lockout.PatientGuesserAttainsBound | server/sdk/skillhub/auth/local.go:147-164 | The bound is attained: guessing when each lock ends, every guess is compared and saved. |
| Lockout.LostGuessesAreFree | server/sdk/skillhub/auth/local.go:158-163 | While no failed attempt can be saved every guess is compared and the credential never changes, however many there are. |
| Tokens.Service.CreateToken | server/sdk/skillhub/auth/token.go:37-94 | The table after a creation, and when the name is invalid or taken; an ignored look-up failure is caught by the unique index. |
| Tokens.Service.RotateToken | server/sdk/skillhub/auth/token.go:97-108 | The table after a rotation, for every combination of failing store calls. |
| Tokens.Service.RevokeToken | server/sdk/skillhub/auth/token.go:135-144 | Only a token of that user is revoked; anything else is ignored. |
| Tokens.Service.Save | server/migrations/001_users_auth.sql:73-74 | The unique index refuses a second unrevoked token of a user with the same name up to case. |
| Tokens.AfterKeepsOneActive | server/sdk/skillhub/auth/token.go:37-144 | Every serial run, failing calls included, keeps at most one unrevoked token per user and case-folded name, and only trimmed names of 1 to 64 characters. |
| Tokens.OnlyOwnTokensChange | server/sdk/skillhub/auth/token.go:37-144 | No token is deleted; one changes only by being revoked, by an operation of its own user. |
| Tokens.OthersTouchNothing | server/sdk/skillhub/auth/token.go:37-144 | Over every run without operations of a user, the user's tokens stay what they are and no others are made. |
| Tokens.RevokedForGood | server/sdk/skillhub/auth/token.go:135-144 | A token revoked by its user is revoked in every continuation. |
| Tokens.RotateSucceedsIff | server/sdk/skillhub/auth/token.go:97-108 | Without store failures rotation succeeds iff the trimmed name is valid and nothing was trimmed or no token has the trimmed name. |
| Tokens.RotateAllOrNothing | server/sdk/skillhub/auth/token.go:97-108 | Without store failures rotation either replaces the token or changes nothing. |
| Tokens.RotateLosesIff | server/sdk/skillhub/auth/token.go:97-108 | A rotated token is lost without a replacement iff the revocation succeeds and only the insert fails. |
| Tokens.StoredScopes | server/sdk/skillhub/auth/token.go:68-80 | For scopes without quotes, backslashes and control characters, the scopes read back through the JSONB column are those asked for, once each, iff none is empty or has a comma. |
| Scopes.ScopesToJson | server/sdk/skillhub/auth/token.go:238-247 | The loop prints the array of quoted scopes. |
| Scopes.ParseScopes | server/sdk/skillhub/auth/token.go:208-235 | The loop yields the trimmed, unquoted, non-empty parts, first occurrences in order. |
| Scopes.ParsedClean | server/sdk/skillhub/auth/token.go:208-235 | Whatever the text, the scopes parsed are distinct, not empty, and without commas or outer quotes. |
| Scopes.DedupStable | server/sdk/skillhub/auth/token.go:218-233 | Deduplication is stable: that of a prefix is a prefix. |
| Scopes.SpacedRoundTrip | server/sdk/skillhub/auth/token.go:208-247 | With any white space around the array and its separators, parsing gives the deduplicated list iff every scope is clean. |
| Scopes.RoundTrip | server/sdk/skillhub/auth/token.go:208-247 | Parsing what was printed gives the deduplicated list iff no scope is empty, has a comma, or a quote at an end. |
| Scopes.ColumnRoundTrip | server/migrations/001_users_auth.sql:65 | Through the JSONB text, which has a space after each comma, printing and parsing plain scopes gives the deduplicated list iff none is empty or has a comma. |
| Scopes.ThreeScopes | server/sdk/skillhub/auth/token.go:238-247 | The text of three scopes and of none, as it is written and as the column gives it back. |
| Scopes.ParsedIsNormal | server/sdk/skillhub/auth/token.go:208-247 | Printing and parsing again what was parsed changes nothing. |
| Metrics.MetricsRegistry.RecordRequest | server/internal/http/observability/metrics.go:49-87 | Both tables take their next value, the recorded keys are present, the queues list exactly the keys, and no table exceeds 5000. |
| Metrics.MetricsRegistry.EvictCounts | server/internal/http/observability/metrics.go:68-76 | The eviction loop drops the oldest key once when the table is one too large; its break is never reached. |
| Metrics.CountsConserved | server/internal/http/observability/metrics.go:49-76 | For every key and run: live count + evicted counts = requests recorded. |
| Metrics.SumsConserved | server/internal/http/observability/metrics.go:49-87 | For every key and run: live duration sum + evicted sums = durations recorded. |
| Metrics.LiveAreLatest | server/internal/http/observability/metrics.go:57-87 | The queue of either table is always the latest insertions, as many as the cap allows, in order. |
| Metrics.ExactWithinCap | server/internal/http/observability/metrics.go:49-76 | While at most 5000 different keys occur nothing is evicted and every count is exact. |
| Metrics.LabelsFromKey | server/internal/http/observability/metrics.go:122-137 | The labels are the three parts of the key split at its first colons. |
| Metrics.SplitKey | server/internal/http/observability/metrics.go:139-146 | The loop splits at the first colon, or returns the whole text. |
| Metrics.LabelsRoundTrip | server/internal/http/observability/metrics.go:54-55 | The labels shown are those recorded iff neither method nor path has a colon. |
| Metrics.KeysDiffer | server/internal/http/observability/metrics.go:54-55 | Without colons, different requests have different keys. |
| Metrics.KeysRead | server/internal/http/observability/metrics.go:54-56 | The keys: method, path and code separated by colons. |
| Metrics.DecimalReads | server/internal/http/observability/metrics.go:54-55 | The digits shown for a code read back as the code. |
| Paging.ListPipelineRuns | server/sdk/skillhub/agentci/service.go:330-364 | The page after clamping page and size, and the total. |
| Paging.PageParams | server/internal/http/frontend/helpers.go:46-63 | Defaults for missing or out-of-range values, and the cap of 100. |
| Paging.FindByStatusPaged | server/internal/adapters/postgres/review_repo.go:78-95 | Fetching one row more tells exactly whether the list goes on after the page. |
| Paging.IterPipelineRuns | clients/typescript/skillhub/src/client.ts:680-695 | The pages yielded are consecutive, up to the first stop, the page limit or a failed request. |
| Paging.IterFrontendReviews | clients/typescript/skillhub/src/client.ts:576-606 | The same for the iterator that follows hasMore; its test for an empty page never fires after hasMore. |
| Paging.PagesAreStretch | server/sdk/skillhub/agentci/service.go:340-346 | Consecutive pages concatenate to a stretch of the list, in order, each item once. |
| Paging.TotalRunLength | clients/typescript/skillhub/src/client.ts:680-695 | How many pages a total-driven iterator asks for, for every size, positive or not. |
| Paging.TotalRunYields | clients/typescript/skillhub/src/client.ts:680-695 | It yields a prefix of the list; all of it iff its pages of capped size are enough. |
| Paging.TotalRunComplete | clients/typescript/skillhub/src/client.ts:680-695 | For sizes 1 to 100 and enough pages: the whole list in max(1, ceil(total/size)) requests. |
| Paging.CapTruncates | clients/typescript/skillhub/src/client.ts:690-693 | With a size over the cap that is at least the total, at most 100 items arrive. |
| Paging.MoreRunYields | clients/typescript/skillhub/src/client.ts:576-606 | The hasMore-driven iterator yields the whole list, for any size, iff maxPages capped pages hold it, in the fewest requests. |
| Search.BuildSearchParts | server/internal/adapters/postgres/community_repo.go:744-793 | One part per chosen table, numbered consecutively from $2, with one argument each. |
| Search.ParametersBound | server/internal/adapters/postgres/community_repo.go:711-726 | Part i uses $1 and $(i+2) alone, bound to skill and query; limit and offset are the next two and collide with none. |
| Search.SearchCondTrue | server/internal/adapters/postgres/community_repo.go:759-761 | In three-valued logic the condition is true of exactly the matching rows, NULL bodies included. |
| Search.Connectives | server/internal/adapters/postgres/community_repo.go:759-761 | The tables of the three-valued connectives. |
| Search.UnionMeaning | server/internal/adapters/postgres/community_repo.go:744-793 | The union of the parts finds exactly the matching rows of the chosen tables, in table order. |
| Search.FoundIff | server/internal/adapters/postgres/community_repo.go:744-793 | A search finds exactly the rows of the chosen tables, all if none is named, that belong to the skill and whose title or text contains the query, a wiki page by the text of its current version; each is shown with its text or none. |
| Search.Search | server/internal/adapters/postgres/community_repo.go:711-738 | A search returns the requested stretch of the ordered matching rows; none for unknown types. |
| Search.BuildCountQueries | server/internal/adapters/postgres/community_repo.go:815-876 | One count query per chosen table, without filter and join for the empty query. |
| Search.Count | server/internal/adapters/postgres/community_repo.go:795-805 | The total is the number of rows of the unpaged union, for every table content and query. |
| Search.JoinKeepsCount | server/internal/adapters/postgres/community_repo.go:851-861 | The left join by primary key gives one row per wiki page, so leaving it out does not change the count. |
| Search.CountedLimitReturnsAll | server/internal/adapters/postgres/community_repo.go:711-805 | A search limited to the count returns every matching row once. |
| Review.ReviewTaskRepo.UpdateStatusWithVersion | server/internal/adapters/postgres/review_repo.go:159-169 | The update takes place exactly when the version is the expected one, and the rows affected tell. |
| Review.ReviewTaskRepo.Save | server/migrations/004_review_governance.sql:22-23 | A second pending task of a skill version is refused. |
| Review.DecidedOnce | server/sdk/skillhub/review/service.go:141-210 | However reviewers and submitters interleave, a task is decided at most once and, while it exists, says what was decided. |
| Review.DecisionWasAsked | server/sdk/skillhub/review/service.go:141-210 | A task is approved or rejected exactly as a reviewer asked for it, and under that reviewer's name. |
| Review.PendingIffUndecided | server/sdk/skillhub/review/service.go:286-345 | A task that exists is pending iff nobody decided it, and a skill version has one pending task. |
| Review.DecisionVanishesIff | server/sdk/skillhub/review/service.go:371-393 | In every reachable state, a decided task is removed by some continuation if and only if a withdrawal that read it as pending has still to delete it. |
| Review.DecisionCanVanish | server/sdk/skillhub/review/service.go:371-393 | A run in which an approved task is deleted by a withdrawal that had read it as pending. |
| Slug.ValidatorsAgree | server/sdk/skillhub/namespace/slug.go:69-138 | The two validators accept the same ASCII texts. |
| Slug.ValidIff | server/sdk/skillhub/namespace/slug.go:69-138 | Character by character: what either validator accepts, with the lengths and the reserved names. |
| Slug.ValidateTells | server/sdk/skillhub/namespace/slug.go:103-138 | Which defect the package-level validator reports. |
| Slug.NormalIsWords | server/sdk/skillhub/namespace/slug.go:143-154 | Before truncation a slug is the words of the lower-case input (maximal runs of letters and digits) joined by hyphens. |
| Slug.SlugifyIs | server/sdk/skillhub/namespace/slug.go:143-166 | What Slugify returns: the words joined by hyphens, cut to 64 characters and not after a hyphen, or an error below 2. |
| Slug.SlugifyShape | server/sdk/skillhub/namespace/slug.go:143-166 | A slug has 2 to 64 characters of lower-case letters, digits and single hyphens, none at the ends. |
| Slug.SlugifyFixedIff | server/sdk/skillhub/namespace/slug.go:143-166 | The texts that Slugify leaves alone are exactly those of that shape. |
| Slug.SlugifyIdempotent | server/sdk/skillhub/namespace/slug.go:143-166 | Slugifying a slug changes nothing. |
| Slug.SlugifyValidates | server/sdk/skillhub/namespace/slug.go:103-166 | A slug made passes validation iff it is not reserved. |
| Slug.ValidFixedIff | server/sdk/skillhub/namespace/slug.go:50-55 | Of the valid slugs, Slugify leaves alone exactly those without symbols. |
| Text.TrimPadded | server/sdk/skillhub/auth/token.go:222-224 | Trimming text padded with characters of the cut set gives back its middle. |
| Text.SplitJoined | server/sdk/skillhub/auth/token.go:218-246 | Splitting undoes joining for parts free of the separator. |

## Left out

- HTTP handlers, routing, CORS, cookies, configuration, storage clients and row scanning.
- Hashing, password hashing, base64 and randomness: hashes are injective, random codes and ids are fresh parameters.
- Floating-point rounding of token counts and durations: both are reals. 64-bit overflow of counters and of page times size.
- Client address extraction and trusted proxies of the limiters: keys are given. The Redis client's connection errors, on which the caller refuses the request.
- Mutexes: each locked method is one step.
- Repository errors for missing rows: look-ups return an option, as the services are written against.
- Text outside ASCII: lengths are byte lengths and case folding, white space and the letter, number and symbol classes are those of ASCII.
- Membership changes, logins and token operations that interleave with each other: their invariants are about serial operations.
- Secret scanning and document heuristics of the local runner: only the statuses of its results reach the executor. Check steps, logs and artifacts.
- Lease times, retries and restarts of workers: a worker may stop for good between any two calls, and a claimed run is not picked up again.
- Path normalization of the metrics: paths are opaque. The rendering of the metrics page.
- Registration, password change and reset, identity login, role administration.
- Release and promotion services, notifications, community proposals and labels.
- The other parts of a review decision (permissions, publication of the version): the review model has the task rows alone.
- SQL ordering of search rows: any ordering function that permutes the rows.
- AccountMerge.Service.ConfirmMerge: look-ups do not fail. Of a confirmation whose writes fail it says that it can be repeated or the secondary is merged, and that no binding or token is lost, but not which rows had moved.
- Executor.Service.ExecutePipelineRun: no store call fails and nobody else steps in; interleaving, failing calls and lost answers are in the protocol.
- Executor.ExecutionOutcome: a run executed alone; what its record says under interleaving is `RunRecords.RecordTellsChecks`.
- Executor.CompletedRunMeetsGates: a run executed alone; under interleaving it is `RunRecords.CompletedRecordAndGates`.
- Gates.ChecksForGate: the latest 100 checks of a skill are a parameter.
- Executor.Service.ExecuteCheck: the texts of the summaries.
- RedisLimiter.SkewBound: an expired key gives a full bucket again, so nothing is said of runs in which keys expire under skewed clocks.
- Lockout.Service.Login: the look-ups of the credential and the user do not fail.
- Membership.RunKeepsOwners: the edit of a namespace's texts is not among the operations.
- Tokens.StoredScopes: scopes with quotes, backslashes or control characters, which the JSONB column refuses or rewrites.
- Device.OneTokenPerCode: a failing store call has no effect in this model, and the token rotation inside a poll is one step.
- Paging.IterPipelineRuns: the other total-driven iterators have the same loop and are not repeated.
- MemoryLimiter.RateLimiter.Allow: a request key is not empty; the code builds it from a category, a colon and an address.
