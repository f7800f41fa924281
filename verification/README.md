# Verified model of the ZeroAgent-Scan control plane

This project models nine parts of the ZeroAgent-Scan API server and its network gateway, and proves
what each of them is meant to guarantee. The program is written in Go; the model states the same
branches, constants and error cases in Dafny.

- **Rate limiters.** The NVD feed limiter (`NvdRateLimiter`), the per-client limiter in front of
  mutating requests with its idle cleanup (`HttpRateLimiter`), and the gateway's concurrency limiter
  as an interleaving of atomic steps (`SubnetRateLimiter`).
- **Keyset pagination.** The cursor (`KeysetCursor`), the exchange sort and page slicing
  (`SnapshotRepository`, `Snapshots`), and walks over all pages (`Pagination`).
- **Snapshot retention.** What downsampling means and how nightly runs compose (`RetentionSpec`), and
  the dry run against the run (`RetentionEngine`).
- **Leased job queue.** The queue (`JobQueue`), lease bounds over all runs (`JobQueueRuns`), the job
  counters (`JobCounters`), and each call in the fields of jobs and tasks (`JobCalls`).
- **Refresh-token families.** The session store with three indexes over shared objects (`Sessions`),
  and rotation over whole runs (`SessionRuns`).
- **JSONLogic rules.** The evaluator (`JsonLogic`), what each operator answers (`RuleMeaning`), the
  laws of the operators (`RuleLaws`), and rewriting to negation normal form (`RuleRewriting`).
- **Versions and CPE names.** The version comparison (`Versions`, `VersionOrder`), what it makes of
  versions as written (`VersionMeaning`), sanitising, printing and parsing (`Cpe`), matching
  (`CpeMatcher`) and what it takes (`MatchMeaning`), and which criteria tell equal versions apart
  (`EqualVersions`).
- **Vulnerability scans.** The finding store (`FindingRepository`), the nested matching loop
  (`ScanEngine`), and what it reports (`ScanResults`).
- **Alert suppression.** The alert engine and the dispatch loop (`AlertSuppression`), and suppression
  over whole runs (`AlertRuns`).

Objects that the program updates in place are classes here, with the shared objects and loops they
have there; each method is proved against a function of its inputs and the old state, and the
theorems are about that function, mostly over every run of calls. Clocks, drawn IDs and tokens,
webhook outcomes, payload serialisation, and the parsing and printing of numbers in rules are
parameters, and iteration over a map is an arbitrary choice. Go's `float64` is `real`, and time in
the two token buckets is real-valued seconds. `Strings`, `RealArith` and `Prelude` are helpers.

Where a guarantee does not hold of the code as it stands, the lemma says exactly when it does, or
names inputs on which it fails: `KeepsBudgetIffEmpty`, `BudgetExceeded`, `SpacingKeptIff`,
`CancelledWaitsBreakTheBound`, `CleanupUnobservableIff`, `WindowBoundedIff`, `PeakUnbounded`,
`PageContinuesIff`, `EveryTenantKeepsIff`, `ArchiveDryRunPredicts`, `ArchiveBytesExactIff`,
`StepKeepsExactIff`, `EnqueueKeepsCoveredIff`, `ComplementIff`, `CircularComparisons`,
`ComparesDifferentlyIff`, `HasPlaceIff`, `BoundTellsApartIff`, `TellsApartIff`, `PrintParseIff`,
`HostsMeetIff`, `SameKeyIff`, `WindowEnforcedIff`. In three places the code and its own words
differ, and the model follows the code: `DryRun` is documented as calculating the exact impact, but
its archive bytes trust recorded sizes; the NVD limiter is documented as enforcing a strict budget,
which it can exceed by one request; and a window of hours too long for a 64-bit duration does not
suppress for its length.

Verify everything with `dafny verify dfyconfig.toml`.

## Model

| member | source | states |
|---|---|---|
| `NvdRateLimiter.RateLimiter.NewNVDRateLimiter` | apps/api/internal/vulnscan/ratelimit.go:24-44 | Both configurations start with one token and satisfy interval times fill rate = 1 with a burst of 3. |
| `NvdRateLimiter.RateLimiter.Wait` | apps/api/internal/vulnscan/ratelimit.go:47-93 | The admission time and the bucket left behind, for the sleeping, spaced, immediate and cancelled cases. |
| `NvdRateLimiter.AdmissionMeans` | apps/api/internal/vulnscan/ratelimit.go:51-90 | A call is let through at the first moment at which its token has come in, or the spacing is kept, and no later; it is given up exactly when it is cancelled and would have to sleep. |
| `NvdRateLimiter.StepPays` | apps/api/internal/vulnscan/ratelimit.go:51-90 | One admission is paid for by elapsed time times fill rate or by the drop of min(tokens, 1), strictly if that potential falls from 1. |
| `NvdRateLimiter.AdmissionsBounded` | apps/api/internal/vulnscan/ratelimit.go:47-93 | Any n consecutive admissions of a sequential caller with no cancelled wait satisfy n < fillRate * (last - first) + 2. |
| `NvdRateLimiter.BudgetExceededByAtMostOne` | apps/api/internal/vulnscan/ratelimit.go:21-44 | No 30-second window holds more than 51 admissions with an API key, or 6 without. |
| `NvdRateLimiter.BudgetExceeded` | apps/api/internal/vulnscan/ratelimit.go:21-90 | A sequential caller of a new limiter, with or without an API key, that gets one admission more than the budget in less than 30 seconds. |
| `NvdRateLimiter.KeepsBudgetIffEmpty` | apps/api/internal/vulnscan/ratelimit.go:51-90 | After an admission, k more (k at least 3) take k refill times, however they are timed, exactly when it left the bucket empty. |
| `NvdRateLimiter.SpacingKeptIff` | apps/api/internal/vulnscan/ratelimit.go:60-74 | The minimum spacing is kept exactly when the call found no tokens left or at least one whole token. |
| `NvdRateLimiter.CancelledWaitsBreakTheBound` | apps/api/internal/vulnscan/ratelimit.go:54-80 | With n cancelled waits, 2n + 1 admissions happen in 7n seconds: the bound needs its assumption. |
| `NvdRateLimiter.AdmissionsBoundedAnyway` | apps/api/internal/vulnscan/ratelimit.go:47-93 | With no assumption on cancelled waits, any n consecutive admissions satisfy n < fillRate * (last - first) + 2 + fillRate times the time that the cancelled waits among them count again. |
| `HttpRateLimiter.RateLimiter.NewRateLimiter` | apps/api/internal/middleware/ratelimit.go:28-44 | Rate and capacity, with the defaults for non-positive arguments; no client is known. |
| `HttpRateLimiter.RateLimiter.Allow` | apps/api/internal/middleware/ratelimit.go:60-92 | The verdict, the remaining whole tokens, the whole seconds to retry after, and the table left behind. |
| `HttpRateLimiter.RateLimiter.Cleanup` | apps/api/internal/middleware/ratelimit.go:46-57 | The cleanup keeps exactly the clients seen within ten minutes. |
| `HttpRateLimiter.AllowedFromLevel` | apps/api/internal/middleware/ratelimit.go:75-91 | A client is allowed at most the tokens it has plus rate times the time. |
| `HttpRateLimiter.AllowedInWindow` | apps/api/internal/middleware/ratelimit.go:46-92 | With capacity at most 600 * rate, every window of length T of every run allows a client at most capacity + rate * T requests, cleanups included. |
| `HttpRateLimiter.ForgetsRun` | apps/api/internal/middleware/ratelimit.go:46-92 | Under that condition the limiter that forgets idle clients gives the same answers as one that never does. |
| `HttpRateLimiter.CleanupUnobservableIff` | apps/api/internal/middleware/ratelimit.go:46-92 | The cleanup is unobservable in every run if and only if capacity is at most 600 * rate. |
| `HttpRateLimiter.WindowBoundedIff` | apps/api/internal/middleware/ratelimit.go:46-92 | The window bound holds of every run if and only if capacity is at most 600 * rate. |
| `HttpRateLimiter.SecondBurst` | apps/api/internal/middleware/ratelimit.go:51-72 | Otherwise a client can spend its burst, be forgotten, and get a second burst that its bucket would not have refilled. |
| `HttpRateLimiter.ServerLimitsQualify` | apps/api/internal/middleware/ratelimit.go:28-40 | For a limiter built from whole numbers both hold exactly when the burst is at most ten times the requests per minute. |
| `HttpRateLimiter.ServerLimitsMean` | apps/api/internal/middleware/ratelimit.go:28-40 | Sixty requests a minute and bursts of twenty unless positive numbers are given, as a rate per second. |
| `HttpRateLimiter.NewClient` | apps/api/internal/middleware/ratelimit.go:64-72 | A client never seen is let through and told that all but one of its burst is left. |
| `HttpRateLimiter.RemainingMeans` | apps/api/internal/middleware/ratelimit.go:64-91 | The remaining count that an allowed request is told is exactly how many more the client can send at once. |
| `HttpRateLimiter.RetryMeans` | apps/api/internal/middleware/ratelimit.go:75-91 | A refused client that sends nothing more is refused until the seconds it was told are over, and is allowed at the latest one second later. |
| `SubnetRateLimiter.Limiter.NewSubnetRateLimiter` | apps/gateway/internal/scanner/ratelimiter.go:19-27 | An empty channel of the given capacity, 20 by default, and counters at zero. |
| `SubnetRateLimiter.Limiter.TrySend` | apps/gateway/internal/scanner/ratelimiter.go:30-32 | The send happens exactly while the channel has room. |
| `SubnetRateLimiter.Limiter.EnterCount` | apps/gateway/internal/scanner/ratelimiter.go:33-38 | The count goes up and the peak follows it. |
| `SubnetRateLimiter.Limiter.TryReceive` | apps/gateway/internal/scanner/ratelimiter.go:46-48 | The receive happens exactly while the channel holds something. |
| `SubnetRateLimiter.Limiter.LeaveCount` | apps/gateway/internal/scanner/ratelimiter.go:49-53 | The count goes down, never below zero. |
| `SubnetRateLimiter.StepKeepsConsistent` | apps/gateway/internal/scanner/ratelimiter.go:30-57 | Every step of every caller keeps channel and counter in line with where the callers stand, and uses up the caller's remaining steps. |
| `SubnetRateLimiter.ConcurrencySafe` | apps/gateway/internal/scanner/ratelimiter.go:30-85 | In every state of every interleaving at most `cap` callers run, count and channel agree up to the callers between the two, no release finds the channel empty or the count at zero, and both are zero once all calls are over. |
| `SubnetRateLimiter.PeakIsMaximum` | apps/gateway/internal/scanner/ratelimiter.go:33-38 | In every interleaving the peak is the highest count of all states so far, and was reached. |
| `SubnetRateLimiter.NeverStuck` | apps/gateway/internal/scanner/ratelimiter.go:30-85 | While a call is not over, a step other than an arrival or a timeout is possible. |
| `SubnetRateLimiter.CallsTerminate` | apps/gateway/internal/scanner/ratelimiter.go:79-85 | n calls take at most 5n steps. |
| `SubnetRateLimiter.PeakUnbounded` | apps/gateway/internal/scanner/ratelimiter.go:46-53 | For every n there is an interleaving in which count and peak reach n, whatever the capacity. |
| `KeysetCursor.Base64RoundTrip` | apps/api/internal/repository/keyset.go:19-27 | Decoding unpadded base64url gives back all bytes. |
| `KeysetCursor.PrintIntRoundTrip` | apps/api/internal/repository/keyset.go:18-41 | Scanning a printed int64, negative ones included, gives it back, and the print holds no bar. |
| `KeysetCursor.CursorRoundTrip` | apps/api/internal/repository/keyset.go:17-47 | Decoding an encoded cursor gives back every timestamp and every ID, bars in the ID included. |
| `KeysetCursor.EncodeMeans` | apps/api/internal/repository/keyset.go:17-20 | Three bytes become four characters of the URL alphabet that spell the same 24 bits; groups are encoded one by one, and a short last group without padding. |
| `KeysetCursor.DecodeMeans` | apps/api/internal/repository/keyset.go:27-30 | A string that decodes is the encoding of what it decodes to, but for the unused bits of its last character; no length with remainder one decodes. |
| `KeysetCursor.BadBase64` | apps/api/internal/repository/keyset.go:27-30 | Any character outside the alphabet, other than a line break, is an error. |
| `KeysetCursor.LineBreaksIgnored` | apps/api/internal/repository/keyset.go:27-30 | Line breaks anywhere in the encoding do not matter. |
| `KeysetCursor.PrintIntMeans` | apps/api/internal/repository/keyset.go:18 | A time is printed in decimal without leading zeros, after a minus sign if it is negative. |
| `KeysetCursor.CursorCarries` | apps/api/internal/repository/keyset.go:17-20 | A cursor carries the decimal time, a bar and the ID. |
| `KeysetCursor.BadCursors` | apps/api/internal/repository/keyset.go:23-36 | The empty cursor is none; bad base64, a missing bar and a missing time are three different errors. |
| `KeysetCursor.ScanMeans` | apps/api/internal/repository/keyset.go:37-41 | Blanks may precede the digits of the time and anything may follow them; without digits, or beyond 64 bits, there is none. |
| `KeysetCursor.ScanSigned` | apps/api/internal/repository/keyset.go:37-41 | The same with a sign, which the digits have to follow at once. |
| `SnapshotRepository.SortDescending` | apps/api/internal/repository/repository.go:1261-1268 | The exchange sort leaves a sorted permutation of the array. |
| `SnapshotRepository.SearchCursor` | apps/api/internal/repository/repository.go:1271-1282 | The first item below the cursor, or zero when there is none. |
| `SnapshotRepository.Repository.SaveSnapshot` | apps/api/internal/repository/repository.go:1219-1231 | The snapshot is stored under its ID, with a missing ID or time filled in. |
| `SnapshotRepository.Repository.ListSnapshotsKeyset` | apps/api/internal/repository/repository.go:1246-1313 | The page of the unique listing of the selected snapshots that the request asks for; its items are stored snapshots of the tenant and the host named, in order and within the limit. |
| `SnapshotRepository.Repository.ListAllSnapshotsForTenant` | apps/api/internal/repository/repository.go:1485-1497 | Each snapshot of the tenant, or of all tenants if none is named, once, in no particular order. |
| `SnapshotRepository.Repository.ArchiveSnapshotPayload` | apps/api/internal/repository/repository.go:1500-1526 | One snapshot is archived: payload gone, size and archive recorded; an unknown ID is an error. |
| `SnapshotRepository.Repository.MarkSnapshotWeeklyRetained` | apps/api/internal/repository/repository.go:1529-1539 | One snapshot gets its retained flag; an unknown ID is an error. |
| `SnapshotRepository.SortedCollectionIsListing` | apps/api/internal/repository/repository.go:1250-1268 | A sorted permutation of the collected snapshots is strictly descending by time and ID, and holds each selected snapshot once. |
| `Snapshots.ListingUnique` | apps/api/internal/repository/repository.go:1250-1268 | A store has one listing, whatever order its map is walked in. |
| `Snapshots.LessMeans` | apps/api/internal/repository/repository.go:1264 | IDs are ordered by their first different byte, a proper prefix first. |
| `Snapshots.ListingMeans` | apps/api/internal/repository/repository.go:1250-1268 | A listing holds exactly the stored snapshots of the tenant and the host, an empty name standing for all, newest first and by descending ID at one time. |
| `Snapshots.PageHolds` | apps/api/internal/repository/repository.go:1246-1313 | Every item of a page has the tenant and the host asked for, if named; the page keeps order and limit (20 by default, 100 at most), and a first page, or one for a bad cursor, leaves out only what comes after its items, and says so. |
| `Pagination.WalkReturnsLasting` | apps/api/internal/repository/repository.go:1270-1313 | Following NextCursor until HasMore is false returns selected snapshots only, in strictly descending order, and every one that stays to the end exactly once, whatever is added, and whatever is removed as long as something is left below each cursor. |
| `Pagination.WalkReturnsEachOnce` | apps/api/internal/repository/repository.go:1270-1313 | When snapshots are only added in between, every snapshot present at the start is returned exactly once. |
| `Pagination.WalkMeans` | apps/api/internal/repository/repository.go:1250-1313 | A walk for a tenant and a host returns every snapshot of theirs that was stored at its start exactly once, and none of another tenant or host. |
| `Pagination.QuietWalkIsListing` | apps/api/internal/repository/repository.go:1250-1313 | Over a store that stays as it is, a walk returns exactly the snapshots of the tenant and the host, each once, in order. |
| `Pagination.AddingWalks` | apps/api/internal/repository/repository.go:1295-1305 | When nothing is removed, something is always left below the cursor. |
| `Pagination.WalkCovers` | apps/api/internal/repository/repository.go:1270-1313 | The same from any cursor with something below it: strictly descending items below the cursor, and all that stay there to the end. |
| `Pagination.ItemsAreFromStores` | apps/api/internal/repository/repository.go:1250-1305 | Every item returned is a selected snapshot of the store its page was fetched from. |
| `Pagination.PageContinuesIff` | apps/api/internal/repository/repository.go:1271-1282 | A page continues below its cursor exactly when the store still has something below it; otherwise it starts over with the first item. |
| `RetentionSpec.DownsampledMeans` | apps/api/internal/retention/engine.go:284-330 | Each old host-week keeps one snapshot, its latest, flagged; recent, archived and other tenants' snapshots are untouched. |
| `RetentionSpec.DownsampledUnique` | apps/api/internal/retention/engine.go:300-329 | With distinct times per bucket the outcome is determined. |
| `RetentionSpec.DownsamplingComposes` | apps/api/internal/retention/engine.go:284-330 | Downsampling at a cutoff and then at a later one is an outcome of downsampling once at the later cutoff. |
| `RetentionSpec.DownsamplingSplits` | apps/api/internal/retention/engine.go:284-330 | With ties or without, one run at the later cutoff and two runs up to it have the same possible outcomes. |
| `RetentionSpec.NightlyRunsAgree` | apps/api/internal/retention/engine.go:284-330 | With distinct times per bucket it leaves exactly the same snapshots and flags. |
| `RetentionSpec.DownsamplingIdempotent` | apps/api/internal/retention/engine.go:284-330 | A second run at the same cutoff changes nothing, ties or not. |
| `RetentionSpec.EveryTenantKeepsIff` | apps/api/internal/retention/engine.go:292-329 | Every tenant keeps a snapshot of each of its old host-weeks if and only if no two tenants share one, as they can when a run names no tenant. |
| `RetentionEngine.GroupByHostWeek` | apps/api/internal/retention/engine.go:290-298 | Each eligible snapshot is in the group of its host and ISO week, in list order, and no group is empty. |
| `RetentionEngine.Engine.DryRun` | apps/api/internal/retention/engine.go:38-197 | Changes nothing. From the request's text: trimmed and in lower case, "" and "archive" report every due snapshot to archive and none to remove, "downsample" the reverse, and any other name is rejected; with the number looked at and exactly the hosts affected. |
| `RetentionEngine.Engine.DryRunArchive` | apps/api/internal/retention/engine.go:70-99 | The number of eligible snapshots, and the sum of their recorded or serialised sizes. |
| `RetentionEngine.Engine.DryRunDownsample` | apps/api/internal/retention/engine.go:100-170 | The impact of some outcome of downsampling the store. |
| `RetentionEngine.Engine.Execute` | apps/api/internal/retention/engine.go:200-396 | From the request's text: "" and "archive" remove nothing and archive exactly the due snapshots that serialise, "downsample" archives nothing and keeps one due snapshot per host and week, its latest, and any other name changes nothing; ninety days if none are given. |
| `RetentionEngine.Engine.ExecuteArchive` | apps/api/internal/retention/engine.go:239-283 | The context's error exactly when it ends before every snapshot was looked at, with some archived; otherwise exactly the eligible snapshots that serialise are archived, and their serialised sizes are added up. |
| `RetentionEngine.Engine.ExecuteDownsample` | apps/api/internal/retention/engine.go:284-330 | The store becomes an outcome of downsampling, and the counts and bytes are that outcome's. |
| `RetentionEngine.Engine.PruneOthers` | apps/api/internal/retention/engine.go:314-328 | Exactly the snapshots of the bucket before its latest are removed. |
| `RetentionEngine.ImpactCounts` | apps/api/internal/retention/engine.go:300-329 | Retained is the number of host-weeks, pruned the number of eligible snapshots less that, and the number that are gone. |
| `RetentionEngine.DownsampleDryRunPredicts` | apps/api/internal/retention/engine.go:100-330 | The dry run predicts the counts of any run, and with distinct times its bytes and its store too. |
| `RetentionEngine.ArchiveDryRunPredicts` | apps/api/internal/retention/engine.go:70-283 | The archived counts agree exactly when every eligible payload serialises; the bytes differ by the sum of recorded minus serialised sizes. |
| `RetentionEngine.ArchiveBytesExactIff` | apps/api/internal/retention/engine.go:70-283 | When no two unarchived snapshots were made at the same time, the predicted bytes are right for every cutoff if and only if each of them has no recorded size or the one its payload serialises to. |
| `RetentionEngine.ArchiveDryRunNotExact` | apps/api/internal/retention/engine.go:37-99 | A store on which the predicted archive bytes are wrong. |
| `RetentionEngine.ArchivingLeaves` | apps/api/internal/retention/engine.go:244-283 | After archiving only what did not serialise is still eligible, so a second run archives nothing. |
| `RetentionEngine.ArchiveOutcomeMeans` | apps/api/internal/retention/engine.go:239-283 | An archiving run keeps every ID and changes only due snapshots that serialise, by archiving them; all of them unless the context ends first. |
| `RetentionEngine.DownsampleOutcomeMeans` | apps/api/internal/retention/engine.go:284-330 | A downsampling run leaves what is not due as it is, keeps exactly one due snapshot per host and week, flagged and none later, and counts those that are gone. |
| `RetentionEngine.BytesOfOne` | apps/api/internal/retention/engine.go:78-82 | For one due snapshot the dry run counts a positive recorded size and otherwise the serialised one, and the run always the serialised one. |
| `RetentionEngine.BytesAddUp` | apps/api/internal/retention/engine.go:70-283 | Predicted and freed bytes of two stores without a common ID add up. |
| `RetentionEngine.DownsampleBytes` | apps/api/internal/retention/engine.go:314-328 | The bytes that downsampling frees are the archive bytes predicted before it less those predicted after it. |
| `JobQueue.PersistentJobQueue.EnqueueJob` | apps/api/internal/queue/job_queue.go:74-102 | A queued job of the targets' number, and one new pending task per target. |
| `JobQueue.PersistentJobQueue.LeaseBatch` | apps/api/internal/queue/job_queue.go:105-134 | A batch of distinct pending tasks, as many as asked for (at least one) or as there are; they are leased, their queued jobs start, and nothing else changes. |
| `JobQueue.PersistentJobQueue.CompleteTask` | apps/api/internal/queue/job_queue.go:137-168 | The task is completed and its job's counters and status follow; an unknown task changes nothing. |
| `JobQueue.PersistentJobQueue.FailTask` | apps/api/internal/queue/job_queue.go:171-205 | The task is retried while retries are left, otherwise failed and counted. |
| `JobQueue.PersistentJobQueue.ReclaimExpiredLeases` | apps/api/internal/queue/job_queue.go:209-227 | Exactly the expired leases are taken back, and their number is returned. |
| `JobQueueRuns.TaskStep` | apps/api/internal/queue/job_queue.go:74-227 | What each call does to each task that is there. |
| `JobQueueRuns.LeasesBounded` | apps/api/internal/queue/job_queue.go:105-227 | In every run, whatever callers do, a task is leased at most 1 + retries + reclaims times and retried at most twice. |
| `JobQueueRuns.ReclaimLeavesNoneExpired` | apps/api/internal/queue/job_queue.go:207-227 | After a reclaim no lease that is left has expired. |
| `JobQueueRuns.BatchTakesNoHeldTask` | apps/api/internal/queue/job_queue.go:113-131 | A batch takes no task that a worker still holds, and its tasks are the new worker's. |
| `JobCalls.EnqueueMeans` | apps/api/internal/queue/job_queue.go:74-102 | Each target gets its own pending task with two retries, under its own ID, and the job starts queued with their number; no other task or job changes. |
| `JobCalls.LeaseMeans` | apps/api/internal/queue/job_queue.go:105-134 | A batch is of distinct pending tasks, and full or all there are; each is held by the worker until the lease ends, exactly the queued jobs they belong to are under way, and nothing else changes. |
| `JobCalls.CompleteMeans` | apps/api/internal/queue/job_queue.go:137-168 | One host more is scanned, and compliant if reported so; the job is final, as of now, exactly when none is left to count. |
| `JobCalls.FailMeans` | apps/api/internal/queue/job_queue.go:171-205 | A retryable failure with retries left puts the task back with one retry used and no lease; any other is final and counts as one host failed. |
| `JobCalls.ReclaimMeans` | apps/api/internal/queue/job_queue.go:209-227 | A lease that ended before now is taken back without using a retry; one that ends now or later stays, and jobs do not change. |
| `JobCalls.CompliantHostsCountReports` | apps/api/internal/queue/job_queue.go:137-168 | Over any stretch of any run that does not enqueue the job anew, its compliant hosts grow by exactly its compliant reports. |
| `JobCounters.CountersExact` | apps/api/internal/queue/job_queue.go:74-227 | In every run that enqueues jobs under IDs no task has, with fresh counters, and reports on a task only while it is open, each job's scanned and failed counts are its completed and failed tasks, compliant is at most scanned, and a non-empty job is completed exactly when no task is open. |
| `JobCounters.StepKeepsExactIff` | apps/api/internal/queue/job_queue.go:74-227 | A call keeps the counters exact if and only if it meets those two conditions. |
| `JobCounters.EnqueueKeepsExactIff` | apps/api/internal/queue/job_queue.go:74-102 | Enqueueing keeps them exact if and only if no task has the job's ID and its counters are fresh. |
| `JobCounters.CountersCover` | apps/api/internal/queue/job_queue.go:136-205 | In every run, reported twice or not, scanned plus failed is at least the number of finished tasks, as long as no used job ID is enqueued again with fewer. |
| `JobCounters.EnqueueKeepsCoveredIff` | apps/api/internal/queue/job_queue.go:78-99 | Enqueueing keeps that if and only if the job's incoming counters cover the tasks already finished under its ID. |
| `JobCounters.CompleteKeepsExactIff` | apps/api/internal/queue/job_queue.go:137-168 | Completing a task keeps the counters exact if and only if the task was open. |
| `JobCounters.FailKeepsExactIff` | apps/api/internal/queue/job_queue.go:171-205 | Failing a task, retried or not, keeps them exact if and only if it was open. |
| `Sessions.MemoryAuthRepository.SaveSession` | apps/api/internal/auth/repository.go:163-170 | The session is filed under its token; the three indexes go on holding the same objects if and only if its ID and token are new and it has a family. |
| `Sessions.MemoryAuthRepository.GetSessionByRefreshToken` | apps/api/internal/auth/repository.go:172-177 | The session found is the very object that the ID index and its family's list hold. |
| `Sessions.MemoryAuthRepository.RevokeSession` | apps/api/internal/auth/repository.go:179-186 | Revoking through the ID index is seen through the token index. |
| `Sessions.MemoryAuthRepository.RevokeSessionFamily` | apps/api/internal/auth/repository.go:188-197 | Exactly the sessions of the family are revoked, through the family index. |
| `Sessions.MemoryAuthRepository.ListIsFamily` | apps/api/internal/auth/repository.go:163-197 | The family index lists exactly the family's sessions of the token index. |
| `Sessions.SessionManager.IssueTokenPair` | apps/api/internal/auth/session.go:46-95 | A fresh session of the user and family, good for seven days, is saved, and stays saved when signing fails. |
| `Sessions.SessionManager.RefreshToken` | apps/api/internal/auth/session.go:99-125 | Unknown, replayed, expired, inactive-user and successful exchanges, each with its error and its effect on the store. |
| `SessionRuns.OneLiveSessionPerFamily` | apps/api/internal/auth/session.go:46-125 | In every run of logins and refreshes each family has at most one unrevoked session, and IDs are unique. |
| `SessionRuns.RevocationIsPermanent` | apps/api/internal/auth/session.go:97-125 | No session is dropped, changes hands, or is un-revoked. |
| `SessionRuns.ExchangeRotates` | apps/api/internal/auth/session.go:115-124 | An exchange revokes the old session and adds one live session of the same user and family. |
| `SessionRuns.ExchangedAtMostOnce` | apps/api/internal/auth/session.go:97-125 | Each refresh token is exchanged at most once in a run. |
| `SessionRuns.ReplayEndsTheFamily` | apps/api/internal/auth/session.go:105-109 | After one replay of a revoked token no token of its family is ever exchanged again. |
| `SessionRuns.ReuseEndsTheFamily` | apps/api/internal/auth/session.go:97-109 | Presenting a token again after its exchange is answered as a replay, and kills the tokens that came of the exchange. |
| `SessionRuns.LoginMeans` | apps/api/internal/auth/session.go:46-95 | A login files one unrevoked session of the user and family that expires in seven days, and hands its token out unless signing fails. |
| `SessionRuns.RefreshMeans` | apps/api/internal/auth/session.go:99-125 | Each way a refresh ends, with its error and the exact store it leaves: unknown, revoked, expired, inactive user, rotated, and signing failed. |
| `SessionRuns.HandedOut` | apps/api/internal/auth/session.go:46-95 | The session of a token handed out is new and live, expires seven days later, and has the user and family of the login or of the token exchanged. |
| `SessionRuns.FirstUseExchangesIff` | apps/api/internal/auth/session.go:97-125 | A token handed out earlier in a run and now first presented is exchanged if and only if that is at most seven days ago, its user is active and signing works, provided no token of its family was replayed in between. |
| `SessionRuns.NeverExchangedLate` | apps/api/internal/auth/session.go:111-113 | Whatever happens in between, no token is exchanged more than seven days after it was handed out. |
| `JsonLogic.ResolveVar` | apps/api/internal/compliance/jsonlogic.go:233-262 | The loop over the path finds what walking the data field by field and index by index finds. |
| `JsonLogic.FindIn` | apps/api/internal/compliance/jsonlogic.go:316-341 | The search finds a match exactly when some item is equal, or the lower-cased text contains the target. |
| `JsonLogic.WalkAppend` | apps/api/internal/compliance/jsonlogic.go:241-259 | Walking a longer path is walking on from where the shorter one led. |
| `JsonLogic.EvalNode` | apps/api/internal/compliance/jsonlogic.go:88-115 | The evaluator returns the value of the rule, or its first error. |
| `JsonLogic.ApplyOperator` | apps/api/internal/compliance/jsonlogic.go:117-231 | Each operator in both spellings, its argument errors, short-circuiting included. |
| `RuleMeaning.NumbersAreOrdered` | apps/api/internal/compliance/jsonlogic.go:160-167 | On operands that evaluate to numbers the four orderings are those of the numbers. |
| `RuleMeaning.OrderingMeans` | apps/api/internal/compliance/jsonlogic.go:292-314 | On operands that read as numbers, texts included, they are the order of the extended number line, with the infinities at its ends and false for not-a-number. |
| `RuleMeaning.NoOrderWithoutNumbers` | apps/api/internal/compliance/jsonlogic.go:292-314 | An operand that reads as no number makes every ordering false. |
| `RuleMeaning.EqualityMeans` | apps/api/internal/compliance/jsonlogic.go:130-158 | All four spellings of equality and inequality: equal as numbers if both read as numbers, otherwise the same value or two empty lists. |
| `RuleMeaning.InMeans` | apps/api/internal/compliance/jsonlogic.go:169-182 | In a list some item is equal; in a text the lower-cased target occurs; null is in nothing. |
| `RuleMeaning.FailsIff` | apps/api/internal/compliance/jsonlogic.go:343-364 | What fails as a whole rule: null, false, zero, the texts "", "false" and "0", and empty lists and objects. |
| `RuleMeaning.NotMeans` | apps/api/internal/compliance/jsonlogic.go:216-227 | Both spellings of negation answer the contrary of their target and pass its error on. |
| `RuleMeaning.JunctionsMean` | apps/api/internal/compliance/jsonlogic.go:184-214 | Of two items the second is looked at only if the first does not decide. |
| `RuleMeaning.ListMeans` | apps/api/internal/compliance/jsonlogic.go:88-115 | A list evaluates to the values of its items in order; an empty one to a nil slice. |
| `RuleMeaning.ListErrors` | apps/api/internal/compliance/jsonlogic.go:88-115 | If some item errs the list ends in the error of the first that does. |
| `RuleMeaning.VarMeans` | apps/api/internal/compliance/jsonlogic.go:119-128 | A variable of one part is that field of the data or null; an empty name is the whole data. |
| `RuleMeaning.PathMeans` | apps/api/internal/compliance/jsonlogic.go:233-262 | A longer path goes on in that field. |
| `RuleMeaning.IndexMeans` | apps/api/internal/compliance/jsonlogic.go:248-254 | In a list the next part is an index, and null if it is none or out of range. |
| `RuleMeaning.MalformedRules` | apps/api/internal/compliance/jsonlogic.go:117-231 | Missing operands, a node without an operator and unknown operators each have their error. |
| `RuleMeaning.OperandErrors` | apps/api/internal/compliance/jsonlogic.go:130-182 | The left operand is evaluated first, and its error is the rule's. |
| `RuleLaws.EqualityIsEquivalence` | apps/api/internal/compliance/jsonlogic.go:264-290 | Coercing equality is symmetric and transitive, and reflexive on all but what reads as not-a-number. |
| `RuleLaws.EqualTargetsAreInSameLists` | apps/api/internal/compliance/jsonlogic.go:316-331 | Equal values are in the same lists. |
| `RuleLaws.OrderingsAgree` | apps/api/internal/compliance/jsonlogic.go:292-314 | The four orderings are one strict order with its equality on what reads as a number, and false elsewhere. |
| `RuleLaws.JunctionDecided` | apps/api/internal/compliance/jsonlogic.go:184-214 | `and` and `or` end with the first item that errs or decides them, and later items do not matter. |
| `RuleLaws.AllOrNothing` | apps/api/internal/compliance/jsonlogic.go:184-214 | `and` passes exactly when all items pass; `or` fails exactly when all items fail. |
| `RuleRewriting.NormalKeepsOutcome` | apps/api/internal/compliance/jsonlogic.go:88-262 | Pushing negations inwards never changes whether a rule passes, fails, or which error it ends in. |
| `RuleRewriting.JunctionNegated` | apps/api/internal/compliance/jsonlogic.go:184-227 | De Morgan with the same short-circuiting: the dual stops at the same item, with the same error. |
| `RuleRewriting.NormalIsNormal` | apps/api/internal/compliance/jsonlogic.go:117-231 | The rewriting leaves no negation over and, or, another negation, or a well-formed equality. |
| `RuleRewriting.NormalIffUnchanged` | apps/api/internal/compliance/jsonlogic.go:117-231 | The normal rules are exactly those it leaves alone, so it is idempotent. |
| `RuleRewriting.ComplementIff` | apps/api/internal/compliance/jsonlogic.go:160-227 | Negating `<` gives `>=` exactly when both operands read as numbers or one errs. |
| `RuleRewriting.OnlyNamedPathsMatter` | apps/api/internal/compliance/jsonlogic.go:88-262 | A rule's value or error depends only on the data at the variable paths it names. |
| `Versions.CleanNumber` | apps/api/internal/vulnscan/matcher.go:195-205 | The leading digits of a component. |
| `Versions.CompareVersions` | apps/api/internal/vulnscan/matcher.go:139-193 | The first component that differs decides, with missing components as zero; the short cut for equal strings agrees. |
| `VersionOrder.CompareAntisymmetric` | apps/api/internal/vulnscan/matcher.go:139-193 | Swapping the versions negates the answer, for all strings. |
| `VersionOrder.ComparesAsNumbers` | apps/api/internal/vulnscan/matcher.go:155-192 | On numeric versions the comparison is the dictionary order of zero-padded numbers, both ways. |
| `VersionOrder.OrderedVersionsArePreordered` | apps/api/internal/vulnscan/matcher.go:139-193 | Versions of numbers and of words that start above the digits, such as 1.2.rc1, are totally preordered, and equal ones are interchangeable. |
| `VersionOrder.CircularComparisons` | apps/api/internal/vulnscan/matcher.go:166-189 | Three versions, one with a component too long for 64 bits, of which each is before the next. |
| `VersionOrder.EmptyComponentsBreakEquality` | apps/api/internal/vulnscan/matcher.go:159-189 | "1." equals "1" and "1" equals "1.0", but "1." is before "1.0". |
| `VersionMeaning.CompareMeans` | apps/api/internal/vulnscan/matcher.go:139-193 | Versions as written, of decimal numbers that fit 64 bits with anything but digits behind them, compare by their first different number, a missing one as zero, in both directions; blanks around them and a "v" before them do not matter. |
| `VersionMeaning.NamesCompare` | apps/api/internal/vulnscan/matcher.go:174-189 | A one-component version that starts with no digit compares with any other of one component by their first different character, a proper prefix first. |
| `Cpe.SanitizedIsClean` | apps/api/internal/vulnscan/cpe.go:299-305 | Sanitised fields are lower-case name characters with single inner underscores; they hold no colon. |
| `Cpe.CleanIffUnchanged` | apps/api/internal/vulnscan/cpe.go:299-305 | Those are exactly the fields that sanitising leaves alone, so it is idempotent. |
| `Cpe.SanitizeMeans` | apps/api/internal/vulnscan/cpe.go:299-305 | Anywhere in a field a space counts as an underscore, several underscores as one and outer ones as none, a capital as its small letter, and any other character as nothing. |
| `Cpe.WordsAreKept` | apps/api/internal/vulnscan/cpe.go:299-305 | Words of small letters, digits, dots and hyphens, joined by single underscores, are kept as they are. |
| `Cpe.ParseCPE23String` | apps/api/internal/vulnscan/matcher.go:98-135 | At least five fields under the two fixed ones' names; missing optional fields stay empty and later ones are ignored. |
| `Cpe.PrintParseIff` | apps/api/internal/vulnscan/cpe.go:36-84 | Printing then parsing gives the sanitised fields, "*" for empty ones, exactly when the part holds no colon. |
| `Cpe.PrintingIsStable` | apps/api/internal/vulnscan/cpe.go:36-84 | Printing what was parsed gives the identical string. |
| `Cpe.PrintMeans` | apps/api/internal/vulnscan/cpe.go:36-84 | A name with clean fields holds just these between its colons, in the order of the standard, "*" for empty ones and "a" for an empty part. |
| `CpeMatcher.RangesAreConvex` | apps/api/internal/vulnscan/matcher.go:50-83 | On versions of numbers and words, bounds that accept two versions accept everything between them. |
| `CpeMatcher.FoldedVersionsAreEqual` | apps/api/internal/vulnscan/matcher.go:91 | Numeric versions that differ only in case compare equal. |
| `CpeMatcher.MatchesItself` | apps/api/internal/vulnscan/matcher.go:9-95 | A CPE with proper fields satisfies the criterion that is its own printed name. |
| `MatchMeaning.MatchesIff` | apps/api/internal/vulnscan/matcher.go:9-95 | A host CPE matches if and only if: parts are equal or one is "*"; vendors and products are each "*", equal but for case or one within the other; and the version is unknown, within all bounds set, or without bounds the one named; for a text that is no CPE name, if it holds the product and the version is within bounds. |
| `MatchMeaning.NameMeets` | apps/api/internal/vulnscan/matcher.go:9-95 | The same for a criterion put together from its fields. |
| `EqualVersions.ComparesDifferentlyIff` | apps/api/internal/vulnscan/matcher.go:139-193 | A version compares differently with two numeric versions that are equal if and only if its first component that is no number is too long for 64 bits, or is not the first of all and is empty or starts below the digits. |
| `EqualVersions.HasPlaceIff` | apps/api/internal/vulnscan/matcher.go:139-193 | A version fits into the order of the numeric versions if and only if it has no such component. |
| `EqualVersions.BoundTellsApartIff` | apps/api/internal/vulnscan/matcher.go:61-82 | A bound of each of the four kinds accepts one of two equal numeric versions and not the other if and only if it has such a component, but for an inclusive start or exclusive end that ends empty. |
| `EqualVersions.TellsApartIff` | apps/api/internal/vulnscan/matcher.go:85-92 | A criterion's own version tells equal numeric host versions apart if and only if it ends in empty or zero components behind an empty one, or has a capital V. |
| `EqualVersions.CriterionTellsApartIff` | apps/api/internal/vulnscan/matcher.go:50-95 | A criterion with at most one bound tells equal numeric host versions apart if and only if its bound, or else its own version, has one of these shapes. |
| `EqualVersions.EqualVersionsSameAnswer` | apps/api/internal/vulnscan/matcher.go:9-95 | Numeric host versions that compare equal get the same answer from every criterion without these shapes, with any bounds or none. |
| `EqualVersions.EmptyComponentTellsApart` | apps/api/internal/vulnscan/matcher.go:86-92 | A criterion for version 1. (with its dot) matches host version 1 but not 1.0. |
| `EqualVersions.EmptyBoundTellsApart` | apps/api/internal/vulnscan/matcher.go:72-76 | An inclusive end of 1. accepts host version 1 but not 1.0. |
| `FindingRepository.MemoryFindingRepository.SaveCachedCVEs` | apps/api/internal/vulnscan/repository.go:46-57 | The cache after saving, under trimmed upper-case IDs, the last of an ID winning. |
| `FindingRepository.MemoryFindingRepository.GetCachedCVEs` | apps/api/internal/vulnscan/repository.go:60-69 | Each cached CVE once, in no particular order. |
| `FindingRepository.MemoryFindingRepository.SaveKEVCatalog` | apps/api/internal/vulnscan/repository.go:81-90 | The catalog is replaced by one that holds each item under its trimmed upper-case ID, whatever the order. |
| `FindingRepository.CatalogFinds` | apps/api/internal/vulnscan/repository.go:81-99 | A saved catalog knows a CVE exactly when it lists it, however either is written, and finds the item listed. |
| `FindingRepository.CachedMeans` | apps/api/internal/vulnscan/repository.go:46-57 | Of several CVEs with one trimmed upper-case ID the last is cached, and CVEs that the list does not name stay. |
| `FindingRepository.MemoryFindingRepository.UpsertFinding` | apps/api/internal/vulnscan/repository.go:114-173 | A known finding keeps its object, ID and first sighting; a new one enters both indexes, which stay in bijection if and only if its ID is new; the errors come in order. |
| `FindingRepository.UpsertMeans` | apps/api/internal/vulnscan/repository.go:114-173 | The finding under tenant, endpoint and canonical CVE ID takes over posture and time and is open again, or is entered as it came with ID and status filled in; no other changes. |
| `ScanEngine.FirstCriterion` | apps/api/internal/vulnscan/engine.go:64-73 | A criterion is found exactly when the host CPE satisfies one. |
| `ScanEngine.ScanEngine.ScanSnapshot` | apps/api/internal/vulnscan/engine.go:25-132 | Whatever order the cache comes in, the findings returned are those of the CVEs hit, each once, under the host name given or else the snapshot's, and the store changes by exactly them; the three errors come in order and change nothing. |
| `ScanEngine.ScanEngine.ScanHost` | apps/api/internal/vulnscan/engine.go:52-129 | One host CPE adds the hits of the CVEs that no earlier CPE hit. |
| `ScanEngine.ScanEngine.ReportHit` | apps/api/internal/vulnscan/engine.go:75-127 | One hit becomes one upserted finding, under its own key. |
| `ScanEngine.ScanEngine.MatchedCriterion` | apps/api/internal/vulnscan/engine.go:63-73 | The loop stops at the first criterion satisfied. |
| `ScanResults.ReportedIff` | apps/api/internal/vulnscan/engine.go:52-75 | The CVEs reported are exactly those with an ID that some host CPE matches. |
| `ScanResults.ReportedAs` | apps/api/internal/vulnscan/engine.go:52-118 | The component is the first host CPE that matches, the criterion the first that it satisfies. |
| `ScanResults.ReportedMeans` | apps/api/internal/vulnscan/engine.go:52-75 | In terms of the criteria's texts and bounds: a CVE with an ID is reported exactly when some host CPE meets one of its criteria in part, vendor, product and version. |
| `ScanResults.OtherVendorsUnreported` | apps/api/internal/vulnscan/engine.go:52-75 | A CVE whose criteria name only other vendors is not reported. |
| `ScanResults.NewFindingMeans` | apps/api/internal/vulnscan/engine.go:75-127 | A finding that a scan enters: whose, of what, the score, the advice, and both sightings now. |
| `ScanResults.RecordedAs` | apps/api/internal/vulnscan/engine.go:75-127 | A known exploited vulnerability is critical whatever its severity; component and criterion are those of the hit. |
| `ScanResults.ScanKeepsIdentities` | apps/api/internal/vulnscan/repository.go:135-153 | A scan drops no finding and changes no ID, owner or first sighting. |
| `ScanResults.RescanCreatesNothing` | apps/api/internal/vulnscan/engine.go:45-129 | Scanning again creates no finding and changes none but for when it was last seen. |
| `ScanResults.KeysSeparateHosts` | apps/api/internal/vulnscan/repository.go:133 | Deduplication keys of tenants and endpoints without colons are equal only for the same tenant, endpoint and CVE. |
| `ScanResults.HostsMeetIff` | apps/api/internal/vulnscan/repository.go:133 | Two hosts can come to share a key if and only if tenant, colon, endpoint and colon of one are a prefix of those of the other. |
| `ScanResults.SameKeyIff` | apps/api/internal/vulnscan/repository.go:133 | For one CVE they share it if and only if tenant, colon and endpoint read the same. |
| `ScanResults.ColonsMixHosts` | apps/api/internal/vulnscan/repository.go:133 | With colons in the IDs two hosts can share a key. |
| `ScanResults.OtherHostsUntouched` | apps/api/internal/vulnscan/repository.go:114-173 | A scan leaves the findings of every host whose prefix does not meet its own alone. |
| `AlertSuppression.AlertEngine.IsSuppressed` | apps/api/internal/drift/alerts.go:81-97 | Suppressed exactly when the window is positive, the key is marked, and the saturated time since is below the wrapped window. |
| `AlertSuppression.AlertEngine.EvaluateRules` | apps/api/internal/drift/alerts.go:24-69 | The active rules whose filters match and that are not suppressed, in order. |
| `AlertSuppression.WindowEnforcedIff` | apps/api/internal/drift/alerts.go:95-96 | A positive window is enforced to its full length if and only if it is at most 2562047 hours. |
| `AlertSuppression.SuppressedMeans` | apps/api/internal/drift/alerts.go:81-97 | A marked key is suppressed exactly when the time since is below the signed 64-bit value that the window's nanoseconds leave; a window of no hours, or an unmarked key, never is. |
| `AlertSuppression.DriftWorker.DispatchMatches` | apps/api/internal/drift/worker.go:83-100 | Every matched rule is dispatched once, in order; exactly the successes mark the key, and exactly the logged ones are returned. |
| `AlertSuppression.DriftWorker.ProcessSnapshot` | apps/api/internal/drift/worker.go:77-103 | The events form a run of evaluations in clock order, from the old suppressions to the new. |
| `AlertRuns.MarksAreLastSuccesses` | apps/api/internal/drift/worker.go:81-101 | In every run a key is marked with the time of its last successful delivery, if it had one. |
| `AlertRuns.SuppressedIff` | apps/api/internal/drift/alerts.go:81-97 | An alert is suppressed if and only if some earlier delivery on its key succeeded within the window, so failures never suppress. |
| `AlertRuns.DispatchedIff` | apps/api/internal/drift/worker.go:81-101 | A rule is dispatched if and only if it applies and no delivery on the key succeeded within its window. |
| `AlertRuns.DispatchedMeans` | apps/api/internal/drift/worker.go:81-101 | Without colons in IDs: an event is dispatched for a rule if and only if the rule is active, its severity and category are the event's but for case, its asset class too or contained in the event's, and no alert on the same tenant, host and property succeeded within its window. |
| `AlertRuns.MatchedJoins` | apps/api/internal/drift/alerts.go:32-66 | Rules match in the order of the list, each as often as it is listed. |
| `AlertRuns.LoggedMeans` | apps/api/internal/drift/worker.go:85-88 | The logs are those of the deliveries that left one, in order. |
| `AlertRuns.DeliveriesAreSpaced` | apps/api/internal/drift/worker.go:81-101 | A delivery of a rule with a window of w hours comes at least w hours after every success on the key in an earlier evaluation, of whatever rule. |
| `AlertRuns.RunsJoin` | apps/api/internal/drift/worker.go:37-104 | The runs of consecutive snapshots join to one run in clock order, so all of this holds across snapshots. |
| `AlertRuns.KeysSeparateProperties` | apps/api/internal/drift/alerts.go:76 | Without colons in tenant and host IDs, different hosts and properties have different keys. |
| `AlertRuns.HostsShareKeysIff` | apps/api/internal/drift/alerts.go:76 | In general two hosts can share a key if and only if the start of one's keys is a prefix of the other's. |

## Left out

- AdmissionsBounded: assumes one caller at a time, as the feed sync's own mutex ensures (`AdmissionsBoundedAnyway` drops its other assumption, on cancelled waits); time is real-valued, so the truncation of sleeps to whole nanoseconds is not modelled.
- AllowedInWindow: clock readings are taken under the lock and so never go back; a clock set back is not modelled.
- EqualVersionsSameAnswer: with several bounds one can mask another, so the condition is exact only for criteria with at most one bound or none (`CriterionTellsApartIff`).
- HasPlaceIff: is about one version among the numeric ones; which further sets of versions are ordered is stated for numbers and words only (`OrderedVersionsArePreordered`).
- ArchiveBytesExactIff: without distinct creation times the errors of snapshots made at the same time can cancel; `ArchiveDryRunPredicts` gives the difference in general.
- WalkReturnsLasting: a removal that leaves nothing below the cursor is left to `PageContinuesIff`, which says that the walk then starts over.
- UpsertFinding: the caller's draft is a value, so its later aliasing with the stored record is not modelled; creation and update times and the resolution time are left out.
- ScanSnapshot: takes the CPEs built from the snapshot as given; the tables that normalise vendor, product and version names, and the parsing of catalog due dates, are left out.
- EvalNode: data and rules are parsed JSON whose objects name one operator; the iteration order over several operators in one object, Go values other than JSON ones, and blank or unparsable rule texts are left out.
- ProcessSnapshot: the diff that produces the events (each carrying the tenant and host of the call) and the saving of events and logs are left out; the clock is read once per dispatch, also where the source needs no reading, and never goes back: readings lose their monotonic part in the source, so a clock set back is not modelled.
- Execute: file writing, compression, checksums, audit entry, policy statistics and the result's megabytes are left out; the serialised length of a payload, the archive record and the calendar are parameters.
- DryRun: the sample summaries and the megabytes derived from the bytes are left out.
- Snapshots are values in the repository's map, so a caller holding a record pointer does not see later changes; creation times are 64-bit nanoseconds.
- Lower and upper case and case folding are those of ASCII letters (and of the two letters whose lower case is one); other letters keep their case.
- Scanning of a cursor's timestamp skips ASCII blanks only.
- Audit-log pages have the same code shape, but their timestamps and IDs need not be distinct, and would add nothing new once they are.
- Interleavings inside one `RefreshToken` or `ProcessSnapshot` call: each call runs alone.
- HTTP handlers, middleware headers, network clients, enrollment, reports, the dashboard, seed data and the built-in rule tables: I/O or finite data.
- Backoff jitter and compliance score rounding would add only easy members.
