# A verified model of postfix-tlspol

postfix-tlspol answers, for each mail domain, which TLS policy Postfix has to apply. It looks
up DANE and MTA-STS, keeps both kinds of evidence side by side in a cache, refreshes them in
the background and saves the cache to disk. This project models the decisions behind that
behaviour in Dafny and proves what they guarantee.

`dafny verify dfyconfig.toml` checks everything.

## Layout

| file | contents |
|---|---|
| `Clock`, `Options`, `Text` | instants in nanoseconds, options, byte strings |
| `BatchGrid`, `Retry` | the jittered grid of prefetch batches; the retry schedule |
| `DueHeap`, `Scheduler` | heap order under the sift steps; the scheduler object with its heap, index and failure table |
| `PolicyCache` | branches, the two selectors, query and merge |
| `FailurePath`, `DomainRuns`, `Retention`, `LossExamples` | failed refreshes; whole runs on one domain; what runs keep and exactly what they lose |
| `HitCounts` | hit counting over runs and in the shared tables |
| `Persistence` | the save protocol under interleaving, and the cache object |
| `WorkerPool`, `DanePolicy`, `MxLookup` | bounded concurrent lookups, the folds over their results, MX resolution through aliases |
| `DnsName`, `MtaSts`, `MtaStsReport`, `MtaStsDocument` | name validation, the policy parser, reading printed policies back |
| `ServedDocuments` | from the policy document to the cached answer |
| `Netstring` | the wire codec |

## How to read it

- An instant is an integer number of nanoseconds since the zero time of the Go runtime; the
  instant 0 is the one for which `IsZero` holds. Lifetimes are whole seconds, rounded down.
- Lookup outcomes, clock readings, jitter, the resolver and the outcome of file writes are
  arbitrary inputs, so every result holds for all of them.
- Code that changes state is modelled by objects or loops proved equal to a function on
  values; the properties are then proved of that function, over single steps and over runs.
- Strings hold bytes. Go's map of pointers to entries is a map of values: the program replaces
  a stored entry by a changed copy and never writes through the pointer.

## Where the code differs from what it promises

- *A fresh policy can be dropped.* Clearing or dropping state after lasting failures keeps any
  fresh policy as long as some attempted lookup failed. A refresh in which both lookups were
  suppressed also counts as a failure, and then a fresh MTA-STS policy is dropped. The exact
  condition is `FailurePath.FreshPolicyLostExactlyWithoutFailedAttempt` for the failure path and
  `Retention.RefreshLosesFreshMtaStsExactly` for a whole refresh; DANE policies are never lost
  (`Retention.RefreshKeepsDanePolicies`). `LossExamples.SuppressedRefreshDropsFreshPolicy` is a run
  from an empty cache in which one temporary DANE failure costs an MTA-STS policy that has more
  than five days to live.
- *A policy just fetched can be lost.* A refresh without fresh DANE evidence hands the entry from
  before the refresh to the failure path, even if it has just stored a new MTA-STS policy.
  `Retention.FetchedPolicyKeptOrLost` says exactly when that policy is lost and what is left.
  There are runs from an empty cache for both ways: DANE failed
  (`LossExamples.FetchedPolicyLost`), and DANE was not even asked and no lookup failed
  (`LossExamples.FetchedPolicyLostWithoutFailure`).
- *An expired no-DANE record still counts.* The README of the program says that MTA-STS is used
  only when fresh DANE state proves that there is no DANE policy. The code also accepts an expired
  record until 24 h after the last DANE attempt, even a failed one. `PolicyCache.AnswersOnExpiredRecordExactly`
  says exactly when MTA-STS answers without fresh evidence, `LossExamples.ExpiredRecordStillAnswers`
  is an instance. What does hold over every run is where such a record comes from
  (`DomainRuns.CachedMtaStsRestsOnNoDane`, `DomainRuns.AnswerRestsOnNoDane`) and that DANE was asked
  less than 24 h before (`DomainRuns.ExpiredAnswerFollowsAttempt`).
- *The stored generation can go backwards* after a save whose rename succeeded and whose directory
  sync failed: `Persistence.UnsyncedRenameCanRegress`, with the exact condition in
  `Persistence.StoredGenerationDropsExactly`. That a clean cache is on disk holds even then.

## Model

| member | source | states |
|---|---|---|
| `BatchGrid.Grid.Increasing` | internal/prefetch.go:162-164 | for every jitter, batches are strictly increasing, and any two as far apart as their slots within 250 ms |
| `BatchGrid.Grid.AtOrAfterIsLeast` | internal/prefetch.go:166-180 | `batchAtOrAfter(t)` is the least batch not before `t` |
| `BatchGrid.Grid.AtOrBeforeIsGreatest` | internal/prefetch.go:182-197 | `batchAtOrBefore(t)` is the greatest batch not after `t`, and fails exactly when `t` precedes every batch |
| `BatchGrid.Grid.RoundingFixesBatches` | internal/prefetch.go:166-197 | both roundings leave every batch time where it is |
| `BatchGrid.Grid.PrefetchWindow` | internal/prefetch.go:433-461 | for every jitter and random lead the refresh is due at a batch not in the past, before expiry whenever a batch is left before expiry, and at most 30 s before the expiry of a longer-lived policy |
| `BatchGrid.SplitMixGridIsValid` | internal/prefetch.go:150-207 | the grid built from any start time and 64-bit seed has jitter between 0 and 250 ms, so all grid results apply to it |
| `Retry.PrefetchRetryDelay` | internal/prefetch.go:293-302 | the doubling loop computes min(30·2^(n−1), 300) seconds |
| `Retry.Plan` | internal/prefetch.go:261-287 | the step-by-step computation of a retry is the retry decision |
| `Retry.DecisionBounds` | internal/prefetch.go:257-291 | a retry is due after now, at or before the deadline, at a batch unless at the deadline, and waits its whole delay unless the deadline comes first; giving up needs 30 min since the first failure and the end of the grace period |
| `Retry.AtMostNineRetries` | internal/prefetch.go:253-302 | in every run of failures, each no earlier than the retry before it was due, at most nine retries are scheduled |
| `DueHeap.SwapUp` | internal/prefetch.go:110-118 | one upward swap moves the only break of heap order to the parent |
| `DueHeap.SwapDown` | internal/prefetch.go:110-118 | one downward swap with the earlier child moves the break to that child |
| `DueHeap.HeapMinimum` | internal/prefetch.go:104-112 | the first element of a heap-ordered queue is due no later than any other |
| `Scheduler.PrefetchScheduler.Swap` | internal/prefetch.go:114-118 | exchanges two items and keeps every item's index its own position |
| `Scheduler.PrefetchScheduler.Fix` | internal/prefetch.go:216-219 | restores heap order after one due time was overwritten, keeping the items |
| `Scheduler.PrefetchScheduler.Push` | internal/prefetch.go:120-124 | adds an item, keeping heap order and positions |
| `Scheduler.PrefetchScheduler.RemoveAt` | internal/prefetch.go:227-232 | takes the item at a position out of the heap and nothing else |
| `Scheduler.PrefetchScheduler.PopMin` | internal/prefetch.go:126-134 | takes the first item out of the heap and nothing else |
| `Scheduler.PrefetchScheduler.ScheduleLocked` | internal/prefetch.go:209-225 | the key is due at the given time, every other key as before; index, queue positions and heap order stay consistent |
| `Scheduler.PrefetchScheduler.Remove` | internal/prefetch.go:227-235 | the key is neither scheduled nor failed any more, all others as before |
| `Scheduler.PrefetchScheduler.Clear` | internal/prefetch.go:237-245 | nothing is scheduled or failed |
| `Scheduler.PrefetchScheduler.ResetFailures` | internal/prefetch.go:247-251 | forgets the failures of one key only |
| `Scheduler.PrefetchScheduler.ScheduleRetryUntil` | internal/prefetch.go:257-291 | books the retry decision: the key is due again with its failure counted, or forgotten; no other key changes |
| `Scheduler.PrefetchScheduler.NextDue` | internal/prefetch.go:304-311 | the minimum due time over all keys, and none exactly when nothing is scheduled |
| `Scheduler.PrefetchScheduler.PopDue` | internal/prefetch.go:313-323 | exactly the keys due by now, once each, in order of due time; the rest stays scheduled unchanged |
| `Scheduler.PrefetchScheduler.PerformAll` | internal/prefetch.go:209-323 | after any sequence of operations the object is valid and its tables are what the same operations make of a plain map |
| `Scheduler.FailuresAreCounted` | internal/prefetch.go:257-291 | in every run a recorded failure was counted and its first-failed time is that of a failure of this key |
| `PolicyCache.SkippedDaneIsCovered` | internal/server.go:1513-1636 | when the suppression rules skip the DANE lookup there is a DANE branch to select from, down to the last second of the renew window |
| `PolicyCache.TempExactlyOnDaneTemp` | internal/server.go:1534-1607 | an answer is TEMP exactly when DANE was asked and said TEMP, for every entry, time and renew window |
| `PolicyCache.DaneSkippedOnExpiredRecordExactly` | internal/server.go:1513-1528 | a query goes without a DANE lookup and without a fresh record exactly when the no-DANE record has expired next to an MTA-STS policy and the renew window ends within 24 h of the last attempt |
| `PolicyCache.AnswersOnExpiredRecordExactly` | internal/server.go:1534-1607 | MTA-STS answers without fresh evidence of no DANE exactly then, if it has a policy to offer; the lifetime told stays within the 24 h except in their last second |
| `PolicyCache.MissesPersist` | internal/server.go:905-932 | an entry that cannot be served cannot be served later |
| `PolicyCache.CacheAgreesWithAnswer` | internal/server.go:1004-1064 | after an on-demand query the merged entry serves, at any later time, only the policy and report just answered, and nothing after TEMP |
| `PolicyCache.UnavailableRefreshKeepsMtaSts` | internal/server.go:1587-1595 | a refresh that returned TEMP, nothing available or a zero lifetime leaves a fresh MTA-STS branch untouched |
| `PolicyCache.ServedForItsLifetime` | internal/server.go:905-942 | the lifetime told with a cached answer is honest in both directions |
| `PolicyCache.MergedDaneLifetime` | internal/server.go:944-994 | a completed DANE lookup is stored for its lifetime clamped to 3 min and 30 d, or a day next to an MTA-STS policy, plus less than 20 s |
| `PolicyCache.MergedSummaryMatches` | internal/server.go:1052-1063 | the summary of every merged query result is what the entry serves, else the answer given; this includes entries of old versions without branches |
| `FailurePath.GraceCoversFailedPolicies` | internal/prefetch.go:527-542 | the grace deadline is at least 24 h past the expiry of every policy in an attempted, failed branch |
| `FailurePath.BranchDiscardServes` | internal/prefetch.go:544-568 | clearing the failed branch keeps the other branch and the count and leaves an entry that serves the other policy |
| `FailurePath.Retention` | internal/prefetch.go:499-568 | with a failed attempt, state changes only 30 min after the first failure and 24 h after the expiry of a failed branch's policy; it is dropped exactly when no branch holds a fresh policy |
| `FailurePath.FreshPolicyLostExactlyWithoutFailedAttempt` | internal/prefetch.go:499-568 | over all results, an entry with a fresh policy is dropped exactly when the deadline has passed and no attempted branch lacks data |
| `DomainRuns.StepKeepsGood` | internal/server.go:1370-1391 | every step keeps entries free of TEMP branches, branchless entries unserved and pending hits tied to a stored entry |
| `DomainRuns.StepWritesDane` | internal/server.go:1020-1064 | a step leaves the DANE branch alone unless it stored a completed lookup or cleared a failing branch |
| `DomainRuns.DaneHasOrigin` | internal/server.go:1020-1064 | over every run, a stored DANE branch was written by one earlier step of these two kinds and untouched since |
| `DomainRuns.CachedMtaStsRestsOnNoDane` | internal/server.go:905-932 | over every run, a served MTA-STS result rests on a no-DANE record from a completed lookup without policy or from giving up on a failing branch |
| `DomainRuns.AnswerRestsOnNoDane` | internal/server.go:1513-1607 | the same for answers of fresh queries |
| `DomainRuns.AttemptHasOrigin` | internal/server.go:1046-1051 | over every run, the recorded time of the last DANE attempt is that of a step that did ask for DANE |
| `DomainRuns.ExpiredAnswerFollowsAttempt` | internal/server.go:1513-1528 | over every run, an MTA-STS answer without fresh DANE evidence comes less than 24 h after a step that asked for DANE, and its record has an origin as above |
| `DomainRuns.TempNeverWritesDane` | internal/server.go:1581-1586 | a TEMP result by itself neither creates nor changes a DANE branch |
| `DomainRuns.MtaStsHasOrigin` | internal/server.go:1035-1045 | over every run, a stored MTA-STS policy is the one an earlier step fetched, expiring its capped lifetime after that merge |
| `DomainRuns.MtaStsLifetime` | internal/server.go:971-1002 | over every run, a cached MTA-STS policy is never served at or after its lifetime, capped at 30 days, from its merge |
| `DomainRuns.AnsweredMtaStsLifetime` | internal/server.go:1587-1596 | an answer uses the policy it just fetched or a cached one whose lifetime is not over |
| `Retention.FailureHasOrigin` | internal/prefetch.go:257-291 | over every run, a failure record counts from one failed refresh and has been kept since |
| `Retention.LossFollowsLastingFailure` | internal/prefetch.go:499-525 | over every run, state is cleared or dropped only if a refresh at least 30 min earlier failed with no success between |
| `Retention.RefreshKeepsFreshPolicies` | internal/prefetch.go:634-671 | a whole refresh with a failed attempt keeps every fresh policy it did not itself refresh |
| `Retention.RefreshLosesFreshMtaStsExactly` | internal/prefetch.go:634-671 | a refresh loses a fresh MTA-STS policy that it did not replace exactly when both lookups were suppressed, the DANE record has expired and refreshes have failed for 30 min |
| `Retention.RefreshKeepsDanePolicies` | internal/prefetch.go:634-671 | no refresh loses a DANE policy that is fresh when it ends, fetched or from before |
| `Retention.FetchedPolicyKeptOrLost` | internal/prefetch.go:639-661 | exactly when a refresh loses the MTA-STS policy it fetched: no completed DANE lookup or fresh record, 30 min of failures, and 24 h since the expiry of a DANE policy it failed to renew; and what is left then |
| `LossExamples.SuppressedRefreshDropsFreshPolicy` | internal/prefetch.go:662-671 | a run from an empty cache that drops an MTA-STS policy with more than five days to live |
| `LossExamples.ExpiredRecordStillAnswers` | internal/server.go:1513-1528 | an instance in that run: an expired no-DANE record lets MTA-STS answer after a failed DANE attempt |
| `LossExamples.FetchedPolicyLost` | internal/prefetch.go:659-661 | a run from an empty cache in which a policy fetched while DANE fails is gone when that refresh ends |
| `LossExamples.FetchedPolicyLostWithoutFailure` | internal/prefetch.go:659-661 | a run from an empty cache in which the same happens although no lookup of that refresh failed |
| `HitCounts.StepCounts` | internal/server.go:844-872 | one step adds one for a hit or a stored on-demand refresh and otherwise keeps stored plus pending hits, modulo 2^32 |
| `HitCounts.HitsAreConserved` | internal/server.go:820-872 | over every stretch of a run without removal, the total rises by exactly the hits and stored refreshes in it |
| `HitCounts.PolicyStore.AddCacheHit` | internal/server.go:820-823 | one more pending hit for the domain, nothing else changes |
| `HitCounts.PolicyStore.DrainCacheHits` | internal/server.go:825-831 | returns the pending hits of the domain and empties them |
| `HitCounts.PolicyStore.CleanupIfUnused` | internal/server.go:887-903 | removing an unused counter changes no domain's counts |
| `HitCounts.PolicyStore.FlushCacheHits` | internal/server.go:844-872 | every stored entry takes up its pending hits, each domain independently |
| `HitCounts.PolicyStore.DiscardCachedPolicyState` | internal/server.go:155-170 | the policy state goes, the count stays in a stats-only entry, other domains are untouched |
| `HitCounts.PolicyStore.TryCachedPolicy` | internal/server.go:789-818 | serves what the selector says and counts a hit exactly then |
| `HitCounts.PolicyStore.QueryAndStore` | internal/server.go:1376-1391 | answers a miss and stores the merged entry with all pending hits and one more |
| `Persistence.StepKeepsInv` | internal/utils/cache/cache.go:206-260 | every step of every saver and mutator keeps the protocol invariant |
| `Persistence.CleanMeansStored` | internal/utils/cache/cache.go:206-260 | in every interleaving, a clean cache is on disk, or there is no file and nothing to store |
| `Persistence.StoredGenerationMonotone` | internal/utils/cache/cache.go:245-260 | with all-or-nothing writes the stored generation never goes backwards |
| `Persistence.StoredGenerationDropsExactly` | internal/utils/cache/cache.go:245-316 | in general a write lowers the stored generation exactly when it is not superseded and older than the file, which needs an earlier unsynced rename |
| `Persistence.UnsyncedRenameCanRegress` | internal/utils/cache/cache.go:311-315 | such a run exists |
| `Persistence.SuccessfulSaveIsDurable` | internal/utils/cache/cache.go:173-180 | a save that returns nil, with no mutation since it began, leaves file and map equal whatever other savers did |
| `Persistence.Cache.constructor` | internal/utils/cache/cache.go:79-91 | the state after loading a missing, readable or unreadable file |
| `Persistence.Cache.Set` | internal/utils/cache/cache.go:96-102 | one generation on, dirty, with the entry set |
| `Persistence.Cache.Update` | internal/utils/cache/cache.go:104-117 | the same if the update function asks for it, else nothing |
| `Persistence.Cache.Remove` | internal/utils/cache/cache.go:126-137 | the same for a removal, nothing for a missing key |
| `Persistence.Cache.PersistCopy` | internal/utils/cache/cache.go:245-260 | writes a copy unless superseded and records its generation on success |
| `Persistence.Cache.Save` | internal/utils/cache/cache.go:206-243 | undisturbed, succeeds exactly when nothing is to do or the write works, and then the file holds the map |
| `Persistence.Cache.Purge` | internal/utils/cache/cache.go:139-146 | empties the map; success means that the file is empty, too |
| `WorkerPool.StepKeepsInv` | internal/dane.go:212-278 | every step keeps each host in exactly one place: waiting, with one worker, sent, or dropped by cancellation |
| `WorkerPool.SendIsSafe` | internal/dane.go:246-255 | in every schedule a worker with a result finds the channel open and never waits for room |
| `WorkerPool.BoundedConcurrency` | internal/dane.go:231-259 | at most min(4, hosts) lookups are in flight |
| `WorkerPool.EachHostOnce` | internal/dane.go:462-519 | a finished schedule without cancellation sent exactly one result per host |
| `WorkerPool.FullCountIsComplete` | internal/dane.go:462-519 | in every schedule no host is reported twice, and as many results as hosts means all of them |
| `WorkerPool.StepsLowerRank` | internal/dane.go:212-278 | every step lowers a rank, so every schedule ends |
| `WorkerPool.NeverStuck` | internal/dane.go:261-275 | as long as the results are open some step is possible, cancelled or not |
| `DanePolicy.GetDanePolicy` | internal/dane.go:521-574 | the fold in arrival order gives the order-free verdict, or an error if results are missing or the context ends |
| `DanePolicy.VerdictIgnoresOrder` | internal/dane.go:521-574 | two arrival orders of the same results give the same answer |
| `DanePolicy.EvaluateArrivals` | internal/dane.go:448-574 | pool and fold together: a policy is the verdict on all hosts, never on fewer; without cancellation the verdict is always reached |
| `DanePolicy.CheckMx` | internal/dane.go:287-305 | reachable iff some address type is; failed iff none is and one failed |
| `DanePolicy.CollectMxHosts` | internal/dane.go:51-79 | exactly the reachable hosts in arrival order, the least of their lifetimes, incomplete iff one was left out; an error iff one failed or the context ended |
| `DanePolicy.EvaluateMxArrivals` | internal/dane.go:43-80 | pool and fold together give the verdict on all hosts, or an error if the context ended |
| `DanePolicy.MxVerdictIgnoresOrder` | internal/dane.go:51-79 | the arrival order does not matter |
| `DanePolicy.CheckTlsa` | internal/dane.go:373-411 | `dane-only` iff an authenticated answer has a usable record, with the lifetime of the first; `dane` iff it has only unusable ones, with their least lifetime |
| `MxLookup.LookupIsSound` | internal/dane.go:82-192 | for every resolver: at most 8 hops and 9 queries, errors included, genuine replies, distinct hosts, no host outliving a hop, and complete only if every reply was authenticated |
| `MxLookup.HostsFromLastReply` | internal/dane.go:149-191 | the hosts are exactly the MX records at the end of the alias chain of the last reply or, without any, the name last asked if that reply was authenticated and has no alias for it; each lives for the least of its record and all hops made |
| `MxLookup.MxHostsCollected` | internal/dane.go:149-167 | each exchange of a matching MX record once, with the least lifetime of its records |
| `MxLookup.NegativeTTLMeans` | internal/dane.go:194-210 | the least SOA lifetime or minimum, as in section 5 of RFC 2308; 0 without an SOA |
| `MxLookup.HostIsAbsolute` | internal/dane.go:156-165 | under the program's naming rules the recorded host is the absolute form of the trimmed, lower-cased exchange |
| `MxLookup.CollectHops` | internal/dane.go:107-119 | the loop builds the alias table or detects two targets for one owner |
| `MxLookup.FollowAliases` | internal/dane.go:121-147 | the loop follows the chain within the budget and keeps the least lifetime |
| `MxLookup.CollectMx` | internal/dane.go:149-167 | the loop with its index of seen hosts collects exactly the MX hosts |
| `MxLookup.NegativeResponseTTL` | internal/dane.go:194-210 | the loop computes the negative lifetime |
| `MxLookup.LookupMxRecords` | internal/dane.go:82-192 | loops and recursion compute the lookup that the results above are about |
| `DnsName.CheckDnsName` | internal/utils/valid/valid.go:40-76 | the one-pass scanner accepts exactly the names made of well-formed labels |
| `DnsName.BytesOfName` | internal/utils/valid/valid.go:55-71 | an accepted name holds only letters, digits, hyphens and dots |
| `DnsName.FinalDotIsOptional` | internal/utils/valid/valid.go:44-46 | one final dot does not change the verdict |
| `MtaSts.ParseMeansAccept` | internal/mta-sts.go:247-322 | reading lines is exactly accepting the fields that count and summing them up |
| `MtaSts.FirstValueWins` | internal/mta-sts.go:263-265 | deleting every later repetition of a non-mx key changes neither policy nor report nor max_age |
| `MtaStsReport.EveryMxCounts` | internal/mta-sts.go:274-289 | no mx line of an accepted document is skipped |
| `MtaStsReport.MatchListReadsBack` | internal/mta-sts.go:348-351 | splitting the printed match list at colons returns all mx patterns in order, lower-cased, without the star |
| `MtaStsReport.ReportReadsBack` | internal/mta-sts.go:238-244 | splitting the printed report at its braces returns exactly the reported keys and values in order |
| `MtaStsDocument.EnforcedExactly` | internal/mta-sts.go:328-354 | exactly which documents yield a policy, and that it lives for the first max_age capped at 31557600 s |
| `MtaStsDocument.PolicyParser.ParseLine` | internal/mta-sts.go:247-322 | the parser object takes the step of the parsing function, or rejects the line |
| `MtaStsDocument.ParsePolicy` | internal/mta-sts.go:328-354 | reading a body through a parser object computes the parsed document |
| `ServedDocuments.ServedDocument` | internal/mta-sts.go:393-422 | over every run, a cached MTA-STS policy is served only for a valid document in enforce mode that an earlier step fetched, names exactly its mx patterns, and ends with its first max_age, after 30 days at most |
| `ServedDocuments.AnsweredDocument` | internal/mta-sts.go:393-422 | the same for the answer of a fresh query, from its own document or an earlier one |
| `Netstring.DecodeExactly` | internal/utils/netstring/netstring.go:30-83 | the stream decoder succeeds exactly on encodings within the limit and takes exactly their bytes |
| `Netstring.StreamRoundTrip` | internal/utils/netstring/netstring.go:129-131 | reading back any concatenation of encoded messages returns them and leaves the rest |
| `Netstring.SplitExactly` | internal/utils/netstring/netstring.go:85-127 | the buffer decoder finds a token exactly where the buffer starts with an encoding |
| `Netstring.DecodersAgree` | internal/utils/netstring/netstring.go:30-127 | both decoders accept the same frames with the same payload and length |
| `Netstring.SplitIsStable` | internal/utils/netstring/netstring.go:85-127 | a token or error on a non-final buffer is unchanged by further bytes |
| `Netstring.SplitBuffer` | internal/utils/netstring/netstring.go:85-127 | the loop computes the buffer decoder, errors included |
| `Netstring.Reader.Read` | internal/utils/netstring/netstring.go:30-83 | the loop over the reader computes the stream decoder, errors and consumed bytes included |

## Left out

- Sockets, HTTP, metrics, configuration, command line and logging: plumbing around the modelled decisions.
- DNS and HTTPS exchanges, certificates and TLSA usability: arbitrary inputs.
- The TXT record check of MTA-STS (internal/mta-sts.go:43-146): would only add easy members.
- Cache pruning, dumps and their sorting (internal/server.go:1651-1827): would only add easy members.
- Concurrency between a refresh and other steps on the same domain, and the sharing of one lookup by several queries: a step on a domain is atomic.
- Entries written by old versions, without branches: runs start from an empty cache. The selector and the lemmas about single queries do cover them.
- Gob and gzip: a write is one step of three outcomes.
- Go's saturating durations and the wrap-around of the 32-bit attempt counter and the 64-bit generation: the numbers are unbounded. The wrap-around of hit counters and of stretched DANE lifetimes is modelled.
- `net.ParseIP`: an arbitrary predicate that only rejects more names.
- Escaped dots and non-ASCII letters in DNS names: names are compared by ASCII case and made absolute by one final dot; the MX results themselves hold for any such naming rules.
- `Scheduler.PrefetchScheduler.Remove`: clears the failure before the queue entry, inside the same locked section.
- Locks, wake-up channel and wait groups: each locked section is one step.
