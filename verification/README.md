# Verified model of go-core

A Dafny model of the parts of go-core that are hardest to get right by reading: the cron
parser and next-run search, the task scheduler that uses it, the job manager with its in-memory
priority queue, the in-memory LRU/TTL cache, the two-tier cache built on it, and the router's
middleware order.

`dafny verify dfyconfig.toml` checks the whole project.

| files | subject |
|---|---|
| `Calendar`, `Arithmetic` | proleptic Gregorian calendar in UTC, instants to dates and back |
| `CronExpression`, `CronSearch`, `CronNextRun` | the six-deep search, against "least matching instant strictly after" |
| `Text`, `CronSteps`, `CronField`, `CronNames`, `CronSpec`, `CronPresets` | the parser, against a grammar and its meaning |
| `Tasks` | due checks, one run of a task, whole histories of runs |
| `JobHeap`, `MemoryQueue` | the binary heap and the in-memory queue |
| `JobProtocol`, `JobPlacement`, `JobSubmission`, `JobTicks`, `JobCounters`, `JobOutcomes`, `JobProgress`, `JobManager` | the job manager as a transition system, and its code |
| `CacheModel`, `CacheKeys`, `CacheInvariant`, `CacheLru`, `CacheRefinement`, `CacheSoundness`, `CacheExpiry`, `CacheCounters`, `CacheBatches`, `MemoryCache` | the in-memory cache: model, theorems, code |
| `TieredModel`, `TieredCoherence`, `TieredDurability`, `TieredStaleness`, `TieredExpiry`, `TieredCache` | the two-tier cache: model, theorems, code |
| `Router` | middleware order |
| `Totals`, `Wrappers` | sums over maps, optional values |

## Main results

**Cron.** For every accepted specification whose steps do not overflow and every instant,
`calculateNextCronRun` returns the least instant strictly later that the *text* names, and reports
failure exactly when none exists through the end of the fourth year after the rounded-up start.
For every expression the dates left in that window decide which of the two it is.
Acceptance is exactly a stated grammar, and the parsed values are exactly what it denotes. Month and
weekday names are replaced in the random order of a Go map; verdict and values are shown not to
depend on it, although the rewritten texts do ("JANOV").

**Job manager.** In every interleaving of client, worker, schedule-tick and retry-timer steps each
accepted job is in exactly one place, except for those, exactly characterised, that were lost when
they were handed in. A job is Completed or Failed exactly when its handler's results say so, workers
take pending jobs by priority and age, handlers are called at most max(1, MaxAttempts) times, the
counters balance against the job records and the handlers' results, finished jobs stay finished, work
between arrivals is bounded, and as long as some job is unfinished, not awaiting its schedule and not
lost, some step can be taken. A tick releases exactly the due jobs among those it read.

**Cache.** Any operation sequence keeps items and list in one-to-one correspondence, the statistics
exact and the size limit. Over whole traces entries stand in order of last use, an evicted key is
the least recently used, and no key is evicted before MaxSize distinct other keys were used. Without
eviction the cache is observably a plain timestamped map, so clean-ups are invisible; with eviction,
and under any clock, every answer is that map's or a miss. When a value can be read after a Set or a
SetTTL is stated on clock readings and durations alone, for one tier and for two.

**Tiered cache.** In every sequential run a returned value is the one last set for its key; it is
returned for certain while its time to live lasts. A bound on how long after that it can still be
returned holds if and only if backfills expire and the bound is at least their time to live:
min(DefaultTTL, 1 hour) for a positive tiered default, the first tier's own default for a zero one.

## Where a promise is false of the code

Each of these is kept as the code has it, with the exact condition proved.

- *Step values* (`queue/cron.go:225,243,254`): `i += step` can overflow. A step such as `*/9223372036854775807`
  in the day field yields negative values. The values are right if and only if the first addition
  fits in 64 bits (`CronSteps.StepExactIff`, `CronSpec.ParsedOk`).
- *Four-year search window* (`queue/cron.go:335`): a schedule whose next date lies beyond the window is
  reported as never running. A next run is found if and only if some date from the start through the
  end of the fourth year after it matches with a matching time left (`CronNextRun.FoundIff`). For
  leap days only, this fails when the next multiple of four is a century year that is not a leap year
  (`CronNextRun.LeapDayProgress`, `CronNextRun.LeapDayMissed`); `0 0 1 1 1`, 1 January on a Monday, is
  not found from 2 January 2007 although 2018 has a match (`CronNextRun.NewYearMondayMissed`).
- *Cron tasks after such a failure* (`queue/task.go:439-442`): NextRun stays in the past, so the task is
  due at every check and runs with no matching instant. As long as the next run's check lies in the
  window, an instant between the two runs matches if and only if the update of the first succeeded
  (`Tasks.RunTriggeredIff`).
- *Enqueue of a scheduled job that is already due* (`queue/memory.go:49-50`, `queue/queue.go:575-580`):
  it is pushed twice and two workers can hold it. A new job is placed exactly once if and only if its
  status is Scheduled exactly when its time is in the future (`JobSubmission.EnqueuePlacesOnceIff`,
  `JobSubmission.DueJobRunsTwice`).
- *Jobs lost when handed in* (`queue/queue.go:368-384`, `queue/memory.go:54-56,111-122`): Schedule stores
  a job without setting its status, and ticks read only Scheduled ones; so a Pending job given to
  Schedule, as `NewJob(...).Build()` makes it, is accepted and never runs. The same happens to a
  Pending job with a future time given to Enqueue. These, and no others, are lost
  (`JobSubmission.SchedulePlacesOnceIff`, `JobPlacement.EveryJobInOnePlace`, `JobPlacement.LostForever`).
- *Ticks and more than 100 scheduled jobs* (`queue/queue.go:568`): a tick reads 100 jobs in the random
  order of a map, so it can pass over one that is due, if and only if more than 100 are scheduled
  (`JobTicks.PassedOverIff`).
- *SetTTL on an expired entry* (`cache/memory.go:351-378`): it revives the entry if no clean-up came
  first, so clean-ups are visible to it exactly when the entry has expired
  (`CacheRefinement.RevivalIsVisible`).
- *Expiry in the two-tier cache* (`cache/tiered.go:62-70`, `cache/cache.go:360-365`): a value can be
  returned after its time to live, because a backfill gives it a new one. It is never returned more
  than a given bound late if and only if the backfill's time to live is positive and the bound is at
  least that long; with a negative tiered default, or a zero one over a first tier whose own default
  is not positive, there is no bound at all (`TieredStaleness.StalenessBoundIff`).

## Model

| member | source | states |
|---|---|---|
| `Calendar.OrderIsChronological` | queue/cron.go:337-522 | comparing year, month, day, hour, minute and second in turn, as the nested loops do, is comparing instants |
| `Calendar.RoundTrip` | queue/cron.go:335-345 | the fields read from an instant rebuild it, for every valid date and time of any year |
| `Calendar.LastDay` | queue/cron.go:373 | day 0 of the following month, carried over year ends, is the last day of the month |
| `Calendar.MonthLengths` | queue/cron.go:373 | the length of each month, February by the Gregorian rule |
| `Calendar.DayCount` | queue/cron.go:373-386 | day numbers agree with a count from March that knows neither leap years nor month lengths |
| `CronExpression.FieldMatches` | queue/cron.go:528-535 | found exactly when the value is listed |
| `CronExpression.FindNextValidValue` | queue/cron.go:539-546 | the least listed value not below the given one, or none exactly when all are below |
| `CronExpression.FindFirstValidValue` | queue/cron.go:551-556 | the least listed value, the field's minimum when nothing is listed |
| `CronSearch.SearchSecond` | queue/cron.go:459-489 | the least candidate of a minute, or none exactly when it has none |
| `CronSearch.SearchMinute` | queue/cron.go:432-500 | the same for an hour, with second 0 when there is no seconds field |
| `CronSearch.SearchHour` | queue/cron.go:403-507 | the same for a day |
| `CronSearch.SearchDay` | queue/cron.go:363-514 | the same for a month; day of month and weekday must both match |
| `CronSearch.SearchMonth` | queue/cron.go:338-521 | the same for a year |
| `CronSearch.SearchYear` | queue/cron.go:334-525 | the least candidate up to four years after the start year, or none exactly when there is none; terminates |
| `CronNextRun.NothingBeforeStart` | queue/cron.go:326-332 | rounding the start up skips no matching instant |
| `CronNextRun.MatchingInstants` | queue/cron.go:484-493 | the matching instants are the whole seconds, in nanoseconds, of matching times |
| `CronNextRun.LeastCandidateIsNextRun` | queue/cron.go:326-525 | a least candidate by fields is the least matching instant strictly after `after` |
| `CronNextRun.NextRun` | queue/cron.go:326-525 | the search meets the one-line specification on instants, success and failure |
| `CronNextRun.NextRunIsUnique` | queue/cron.go:319-525 | the specification allows one result only |
| `CronNextRun.ProgressByWeekday` | queue/cron.go:337-401 | with every day of month listed, a run is found by the end of the year after the start year |
| `CronNextRun.ProgressByDate` | queue/cron.go:337-401 | with every weekday listed and a date that exists in every year, likewise |
| `CronNextRun.FoundIff` | queue/cron.go:334-524 | for every expression: found if and only if a date of the window matches with a matching time left |
| `CronNextRun.LeapDayProgress` | queue/cron.go:334-337 | hence for leap-day schedules: found if and only if one is left this year or the next multiple of four is a leap year |
| `CronNextRun.LeapDayMissed` | queue/cron.go:334-337 | from March 1896 every such search fails although 1904 matches |
| `CronNextRun.NewYearMondayMissed` | queue/cron.go:334-337 | 1 January on a Monday is not found from 2007, after its own, although 2018 matches |
| `CronSteps.CollectSteps` | queue/cron.go:225-227 | the step loop with 64-bit wrap-around appends exactly the specified values and terminates |
| `CronSteps.StepExact` | queue/cron.go:243-245 | without overflow the values are exactly those on the step |
| `CronSteps.StepExactIff` | queue/cron.go:222-257 | values stay within range if and only if the first addition fits in 64 bits |
| `CronSteps.AddStepWraps` | queue/cron.go:225 | an addition stays within 64 bits and differs from the sum by a multiple of 2 to the 64th |
| `CronField.ParseStepField` | queue/cron.go:211-260 | step fields: accepted exactly when the grammar writes the text within bounds, with exactly the denoted values unless the step overflows |
| `CronField.ParseRangeField` | queue/cron.go:263-283 | range fields, likewise |
| `CronField.ParseListField` | queue/cron.go:286-296 | list fields, likewise; fails at the first bad part |
| `CronField.ParseSingleField` | queue/cron.go:299-306 | single values, likewise |
| `CronField.ParseCronField` | queue/cron.go:140-163 | any field without names, likewise |
| `CronField.Accepts` | queue/cron.go:140-306 | every text the grammar writes within bounds is accepted with the values it denotes, in bounds if and only if its step fits |
| `CronField.Accepted` | queue/cron.go:140-306 | every accepted text is written by the grammar within bounds |
| `CronField.Unambiguous` | queue/cron.go:140-306 | however the grammar reads a text, it means the same values |
| `CronNames.ReplaceKeepsReading` | queue/cron.go:204-206 | replacing one name everywhere keeps the order-free reading of a text |
| `CronNames.OrderIrrelevant` | queue/cron.go:166-208 | for every order of replacement, verdict and values are those of the order-free reading |
| `CronNames.NormalizeFieldNames` | queue/cron.go:198-208 | the loop over the map, in any order, keeps the reading |
| `CronNames.ParseCronFieldWithNames` | queue/cron.go:166-195 | the result means what the order-free reading of the text does, failure if it has none; `?` and `*` mean every value |
| `CronNames.MonthsOk` | queue/cron.go:25-28 | no month name ends in two letters another begins with, which the argument needs |
| `CronNames.DaysOk` | queue/cron.go:30-32 | the same for weekday names |
| `CronNames.OverlappingNames` | queue/cron.go:204-206 | the rewritten texts of "JANOV" differ by order, and it has no reading |
| `CronNames.ReadingOfPlain` | queue/cron.go:204-206 | a text without capitals reads as itself |
| `CronNames.ReadingOfConcat` | queue/cron.go:204-206 | names are read one after another, wherever they stand |
| `CronSpec.ParseCronSpec` | queue/cron.go:72-132 | presets, five or six fields, every error case, sorted values |
| `CronSpec.ParsedOk` | queue/cron.go:72-132 | all fields non-empty, sorted and within bounds if and only if no step overflows |
| `CronSpec.ParsedMeans` | queue/cron.go:72-306 | the parsed expression matches exactly the dates and times the text names |
| `CronSpec.MonthNamesMean` | queue/cron.go:25-28 | JAN to DEC are the months 1 to 12, alone and as ends of a range |
| `CronSpec.DayNamesMean` | queue/cron.go:30-32 | SUN to SAT are the days 0 to 6, alone and as ends of a range |
| `CronSpec.NamedTimes` | queue/cron.go:72-208 | a time a specification names lies in the month and on the weekday its fields name |
| `CronSpec.CalculateNextCronRun` | queue/cron.go:319-525 | from text to instant: the least later instant the text names, in the month it names, or the reason there is none |
| `CronPresets.PresetsMean` | queue/cron.go:15-23 | each preset is accepted and matches exactly the times its documentation gives |
| `CronPresets.FieldsOfJoin` | queue/cron.go:77 | words joined by spaces are split back into those words |
| `CronPresets.FieldsOfSpread` | queue/cron.go:77 | words in any white space are split into those words |
| `CronPresets.TrimSpaceIs` | queue/cron.go:289 | white space goes at both ends of a list part, and nothing else |
| `CronPresets.FiveFieldsMean` | queue/cron.go:84-92 | five fields mean the same as six with second 0 |
| `CronPresets.AsciiSpaces` | queue/cron.go:77 | the blank and the control characters 9 to 13 are the white space among ASCII characters |
| `Text.LeadingZero` | queue/cron.go:300 | a leading zero does not change a number |
| `Text.AtoiOfItoa` | queue/cron.go:300 | a written number is read back, with either sign, within 64 bits |
| `Tasks.TasksToRun` | queue/task.go:325-341 | exactly the enabled, idle tasks past their NextRun are started |
| `Tasks.Task.Run` | queue/task.go:344-434 | success: 1 to MaxRetries + 1 calls, the last one succeeding; failure: MaxRetries + 1 calls, all failing; exactly one of RunCount and ErrorCount incremented then, and NextRun recomputed only then |
| `Tasks.Task.UpdateNextRun` | queue/task.go:436-448 | the next cron run after now, unchanged when there is none in reach; now plus interval otherwise |
| `Tasks.ExitMeaning` | queue/task.go:355-434 | success if and only if some attempt succeeds after plain failures; failure if and only if all fail |
| `Tasks.Replay` | queue/task.go:325-448 | checking a cron task again and again produces a history as below |
| `Tasks.NextRunsAscend` | queue/task.go:436-448 | NextRun never moves back and every computed value exceeds all earlier ones |
| `Tasks.RunTriggeredIff` | queue/task.go:436-448 | within the window, NextRun was computed if and only if an instant matches between this run and the next, and is then the first; otherwise the task stays due |
| `JobHeap.Heap.Push` | queue/memory.go:285-291 | heap order kept, contents plus the new job |
| `JobHeap.Heap.Pop` | queue/memory.go:293-299 | heap order kept, contents minus the returned job; nothing left has a higher priority, or the same and an earlier creation |
| `JobHeap.Heap.Drain` | queue/memory.go:270-299 | draining yields all contents by descending priority, then ascending creation |
| `JobHeap.Up` | queue/memory.go:274-283 | sifting up restores heap order and permutes |
| `JobHeap.Down` | queue/memory.go:274-283 | sifting down restores heap order and permutes |
| `MemoryQueue.Queue.Enqueue` | queue/memory.go:40-57 | stored, and pushed with its priority and creation time unless its schedule time is after now; refused when closed |
| `MemoryQueue.Queue.Dequeue` | queue/memory.go:60-77 | the pending job of highest priority, the oldest of those; none exactly when empty or closed |
| `MemoryQueue.Queue.Wake` | queue/memory.go:82-106 | the same after a notification; nothing taken after a timeout or a cancellation |
| `MemoryQueue.Queue.Schedule` | queue/memory.go:111-122 | stored without being pushed |
| `MemoryQueue.Queue.UpdateJob` | queue/memory.go:142-164 | stored, pushed only when pending |
| `MemoryQueue.Queue.GetJobs` | queue/memory.go:181-203 | jobs of the status, each once, all of them when below the limit; an error when closed |
| `MemoryQueue.Replay` | queue/memory.go:40-164 | over any operations, pending is exactly what was pushed and not taken |
| `JobPlacement.StepKeeps` | queue/queue.go:349-586 | every step keeps the consistency of jobs, heap, workers, timers and tick |
| `JobPlacement.EveryJobInOnePlace` | queue/queue.go:349-586 | in every interleaving an accepted job is in exactly one place if and only if no call lost it, and otherwise nowhere; no two workers hold one |
| `JobPlacement.LostForever` | queue/queue.go:368-384 | a lost job stays Pending and nowhere, and no worker ever dequeues it |
| `JobCounters.CallsAreBounded` | queue/queue.go:464-546 | handler calls never exceed max(1, MaxAttempts) |
| `JobCounters.JobsFollow` | queue/queue.go:464-546 | Completed and Failed are never left; limits are kept, attempts never shrink |
| `JobCounters.RetriesDescend` | queue/queue.go:489-514 | each retry leaves strictly fewer attempts, at least one |
| `JobCounters.RunIsBalanced` | queue/queue.go:448-540 | attempts equal counted results plus calls in flight; counters lag records by exactly the results not yet counted |
| `JobOutcomes.ReturnStores` | queue/queue.go:487-539 | Completed without an error, Failed on a plain one, on a retryable one Retrying while attempts remain and Failed otherwise; nothing else changes |
| `JobOutcomes.EndedIff` | queue/queue.go:464-546 | over every run: Completed if and only if the handler once returned without an error, Failed if and only if the job was once given up |
| `JobOutcomes.CountersCount` | queue/queue.go:482-540 | over every run: each counter plus the results not yet counted is the number of such results |
| `JobOutcomes.CallStepsAreBounded` | queue/queue.go:464-546 | the calls of a handler, counted along the run, are at most MaxAttempts, or one |
| `JobOutcomes.FirstJobFirst` | queue/memory.go:274-283 | over every run: no pending job has a higher priority than the one a worker takes, or the same and is older |
| `JobProgress.WorkIsBounded` | queue/queue.go:425-586 | between arrivals only boundedly many steps of work can happen |
| `JobProgress.WorkIsPossible` | queue/queue.go:425-586 | an unfinished job neither awaiting its schedule nor lost means some work can be done now |
| `JobSubmission.EnqueuePlacesOnceIff` | queue/memory.go:40-57 | any new job is in one place if and only if its status agrees with its time |
| `JobSubmission.SchedulePlacesOnceIff` | queue/memory.go:111-122 | any new job given to Schedule is in one place if and only if it is Scheduled or finished; a Pending one is nowhere |
| `JobSubmission.DueJobRunsTwice` | queue/queue.go:574-583 | a due Scheduled job given to Enqueue can come to be held by two workers |
| `JobTicks.TickReleasesIff` | queue/queue.go:567-583 | whatever happens meanwhile, a finished tick has released a job scheduled at its start if and only if it read it and it was due; others are unchanged |
| `JobTicks.SmallTickReleasesAll` | queue/queue.go:567-583 | with at most 100 scheduled jobs, exactly the due ones are released |
| `JobTicks.PassedOverIff` | queue/queue.go:568 | a tick can leave a scheduled job unread if and only if more than 100 are scheduled |
| `JobManager.Manager.Enqueue` | queue/queue.go:349-365 | the accept step, for any job; the stored limit is the job's own, or MaxRetries where it is zero |
| `JobManager.Manager.Schedule` | queue/queue.go:368-384 | the schedule step, for any job: stored, with the limit likewise, and no more |
| `JobManager.Manager.Dequeue` | queue/queue.go:442-447 | the dequeue step, or nothing when the queue is empty |
| `JobManager.Manager.Start` | queue/queue.go:464-469 | the start step: running, one more attempt |
| `JobManager.Manager.LookUp` | queue/queue.go:471-487 | the handler look-up, failing the job when there is none |
| `JobManager.Manager.Return` | queue/queue.go:487-539 | completed, failed, or retrying only while attempts remain |
| `JobManager.Manager.Close` | queue/queue.go:497-540 | exactly one counter, and a timer for a retry |
| `JobManager.Manager.Fire` | queue/queue.go:505-512 | the retry timer puts the job back |
| `JobManager.Manager.Snapshot` | queue/queue.go:567-574 | a tick reads scheduled jobs, each once, at most 100, and all of them when they are fewer |
| `JobManager.Manager.Release` | queue/queue.go:575-583 | a job whose time is not after the tick's clock becomes Pending, loses its time and is enqueued; any other is left alone |
| `CacheModel.FormatKeyInjective` | cache/cache.go:352-357 | distinct keys stay distinct under a namespace |
| `CacheInvariant.SetIsGood` | cache/memory.go:141-214 | the invariant is kept and the key just set survives with its value and expiry |
| `CacheInvariant.BytesOfConcat` | cache/memory.go:186-202 | Memory adds up over the entries, each counting the bytes of its value |
| `CacheInvariant.RunIsGood` | cache/memory.go:141-281 | after any operations: one entry per key, Size and Memory exact, within MaxSize |
| `CacheLru.RunIsRanked` | cache/memory.go:114-118 | entries stand in the order of their last Set or hit |
| `CacheLru.EvictsOldest` | cache/memory.go:427-444 | an evicted key is the one whose last Set or hit is oldest |
| `CacheLru.EvictionNeedsOthers` | cache/memory.go:205-208 | eviction needs MaxSize distinct other keys used since the key's own last use |
| `CacheLru.Retained` | cache/memory.go:179-209 | a used key stays while fewer than MaxSize others are used, unless removed for cause |
| `CacheRefinement.DoAgrees` | cache/memory.go:84-378 | each operation answers as a timestamped map does |
| `CacheRefinement.Refines` | cache/memory.go:84-378 | so does every trace |
| `CacheRefinement.CleanupIsInvisible` | cache/memory.go:466-493 | clean-ups at any points change no answer |
| `CacheRefinement.RevivalIsVisible` | cache/memory.go:351-378 | after a clean-up SetTTL succeeds exactly when the entry had not expired |
| `CacheSoundness.DoWithin` | cache/memory.go:84-378 | under any configuration, eviction included, each operation answers as the timestamped map or with a miss |
| `CacheSoundness.AnswersOrMisses` | cache/memory.go:84-444 | so does every trace, under any clock and with SetTTL |
| `CacheExpiry.SetThenGet` | cache/memory.go:141-169 | right after a Set a Get finds the value if and only if its time to live, or the default for a zero one, is not over |
| `CacheExpiry.SetTTLThenGet` | cache/memory.go:351-378 | right after a SetTTL the value is found if and only if the new time to live is not over |
| `CacheExpiry.ExistsIffGet` | cache/memory.go:235-264 | Exists answers as Get does |
| `CacheExpiry.ExpiredIsRemoved` | cache/memory.go:103-110 | Get and Exists leave the key stored if and only if they found it, and every other key as it was |
| `CacheExpiry.CleanupRemovesExpired` | cache/memory.go:466-493 | a clean-up leaves stored exactly what a Get would find |
| `CacheCounters.CountersTally` | cache/memory.go:84-232 | hits, misses, sets, deletes and evictions are the numbers of such operations; all zero with statistics off |
| `CacheBatches.SetAllThenGet` | cache/memory.go:302-309 | after writing many keys each can be read if and only if the cache had room for it and all later ones, while its time to live lasts |
| `MemoryCache.ItemsAre` | cache/memory.go:14-27 | map and list agree: the map finds what a search through the list would |
| `MemoryCache.MemoryCache.Get` | cache/memory.go:84-138 | the model's Get on the abstract state |
| `MemoryCache.MemoryCache.Set` | cache/memory.go:141-214 | the model's Set |
| `MemoryCache.MemoryCache.Delete` | cache/memory.go:217-232 | the model's Delete |
| `MemoryCache.MemoryCache.Exists` | cache/memory.go:235-264 | the model's Exists |
| `MemoryCache.MemoryCache.Clear` | cache/memory.go:267-281 | the model's Clear |
| `MemoryCache.MemoryCache.SetTTL` | cache/memory.go:351-378 | the model's SetTTL |
| `MemoryCache.MemoryCache.RemoveElement` | cache/memory.go:412-424 | the entry, its list element and its share of the statistics go together |
| `MemoryCache.MemoryCache.EvictLRU` | cache/memory.go:427-444 | the back of the list goes, when eviction is on |
| `MemoryCache.MemoryCache.CleanupExpired` | cache/memory.go:466-493 | the two passes remove exactly the expired entries and keep the order |
| `MemoryCache.MemoryCache.GetMulti` | cache/memory.go:284-299 | one Get after another |
| `MemoryCache.MemoryCache.SetMulti` | cache/memory.go:302-309 | one Set after another, each key exactly once, in some order |
| `MemoryCache.MemoryCache.DeleteMulti` | cache/memory.go:312-319 | one Delete after another |
| `TieredCoherence.DoKeeps` | cache/tiered.go:39-305 | every operation keeps both tiers in line with what was last set |
| `TieredCoherence.ReturnsLastSet` | cache/tiered.go:39-257 | every returned value is the one last set, with no later Delete or Clear |
| `TieredCoherence.NeverTooStale` | cache/tiered.go:62-104 | where backfills expire, never returned later than their time to live after its own, plus the duration of one operation |
| `TieredDurability.GetFindsWhatLasts` | cache/tiered.go:39-84 | returned for certain while its time to live lasts |
| `TieredDurability.GetMultiFindsWhatLasts` | cache/tiered.go:179-231 | the same for every key of a GetMulti |
| `TieredDurability.ExistsWhatLasts` | cache/tiered.go:137-157 | over every run Exists is true while the time to live lasts |
| `TieredDurability.ExistsOnlyWhatWasSet` | cache/tiered.go:137-157 | and true only for a key set with no later Delete or Clear |
| `TieredStaleness.StaleValueReturned` | cache/tiered.go:62-70 | a value read as it expires is returned until its backfill expires; forever, if that does not |
| `TieredStaleness.StalenessBoundIff` | cache/tiered.go:39-231 | over all runs, a bound on lateness holds if and only if backfills expire and it is at least their time to live plus the duration of one operation |
| `TieredExpiry.ExistsIffGet` | cache/tiered.go:137-157 | on any two tiers Exists answers as Get would |
| `TieredExpiry.SetThenGet` | cache/tiered.go:87-113 | right after a Set a Get finds the value if and only if it lives in a tier, through both levels of defaults and with the first tier's hour |
| `TieredExpiry.BackfillThenGet` | cache/tiered.go:62-70 | a value fetched from the second tier is in the first for the tiered default, at most an hour |
| `TieredExpiry.SetTTLThenGet` | cache/tiered.go:284-305 | after SetTTL each tier that had the key returns it for the new time to live, the first at most an hour |
| `TieredExpiry.WarmupThenGet` | cache/tiered.go:368-390 | after WarmupL1 the first tier returns what was found, as far as it has room |
| `TieredExpiry.RefillThenGet` | cache/tiered.go:208-227 | after GetMulti the first tier returns what was fetched, likewise |
| `TieredExpiry.SetMultiThenGet` | cache/tiered.go:234-257 | after SetMulti the first tier returns each item, likewise |
| `TieredExpiry.MissingIs` | cache/tiered.go:193-199 | GetMulti asks the second tier for exactly the keys the first did not find |
| `TieredCache.TieredCache.Get` | cache/tiered.go:39-84 | the model's Get on both tiers, backfill included |
| `TieredCache.TieredCache.Set` | cache/tiered.go:87-113 | the model's Set |
| `TieredCache.TieredCache.Delete` | cache/tiered.go:116-134 | the model's Delete |
| `TieredCache.TieredCache.Exists` | cache/tiered.go:137-157 | the model's Exists: the first tier, then the second |
| `TieredCache.TieredCache.Clear` | cache/tiered.go:160-176 | the model's Clear |
| `TieredCache.TieredCache.GetMulti` | cache/tiered.go:179-231 | the model's GetMulti; everything found in the second tier is written back to the first, each key once |
| `TieredCache.TieredCache.SetMulti` | cache/tiered.go:234-257 | the model's SetMulti |
| `TieredCache.TieredCache.DeleteMulti` | cache/tiered.go:260-275 | the model's DeleteMulti |
| `TieredCache.TieredCache.SetTTL` | cache/tiered.go:284-305 | the model's SetTTL; fails exactly when neither tier holds the key |
| `TieredCache.TieredCache.InvalidateL1` | cache/tiered.go:363-365 | the first tier forgets the key, the second keeps it |
| `TieredCache.TieredCache.WarmupL1` | cache/tiered.go:368-390 | the model's WarmupL1; everything found is written to the first tier, each key once |
| `Router.Router.Use` | web/router.go:98-104 | the registration is added and the groups rebuilt, consistently |
| `Router.Router.Sort` | web/router.go:229-242 | one group per order, highest first, whatever order the map gives |
| `Router.Router.Wrap` | web/router.go:219-227 | middlewares are entered in the stable sort of all registrations by ascending order |
| `Router.StableSortIsUnique` | web/router.go:229-242 | there is only one such order |
| `Router.StableSortMeans` | web/router.go:229-242 | it lists every registration, by ascending order value and within one by time of registration |

## Assumptions

- Instants are unbounded integers in nanoseconds; the calendar is UTC. Day-of-month and day-of-week
  must both match (`queue/cron.go:387-401`); the crontab utility of IEEE Std 1003.1 combines them with
  OR when both are restricted, and the code is followed.
- New jobs have distinct IDs and no attempts, and are Pending or Scheduled, with any schedule time; a
  Scheduled one given to Enqueue is still in the future there. Handlers return and leave the
  bookkeeping fields alone. No DeleteJob or Close happens during a run, and the clock does not go back.
- A job's fields are one record per ID; a worker's write to a job it holds is visible at once, as
  through a pointer. The tick of the schedule processor reads the clock when it reads the jobs.
- Each cache operation is atomic. In `Exists` the code swaps its read lock for a write lock without
  checking again (`cache/memory.go:253-258`); nothing is claimed for interleavings at that point.
- Runs of the two-tier cache are sequential and its tiers do not fail. Values are their serialized
  form, so serialization is the identity.
- List elements of the cache are handles into a store, standing for pointers.
- The task function, contexts, handlers, clock readings and map iteration orders are parameters or
  arbitrary choices.

## Left out

- Redis and RabbitMQ queues and the Redis cache: their behaviour lives in external servers.
- `MemoryQueue.Queue.Dequeue`: the wait between its tries is not modelled, only what each try and each event does; the one-slot notification channel can drop a token, so no prompt wake-up is claimed.
- `calculateRetryDelay`: floating point; a retry timer may fire at any later time.
- Error texts, log output, cache events, hit ratios, progress reports and time stamps that nothing reads (`UpdatedAt`, `AccessAt`, `CompletedAt`).
- Time zones and daylight saving.
- Overlapping starts of one task: the running flag is tested and set in separate steps (`queue/task.go:331,348`), so runs are taken not to overlap.
- Task registration, enabling and removal, job batches, `GetTTL` and statistics queries: they would only add easy members.
- The rest of web, and mail, config, database, security, zlog, flag, interruption, apperror and version: I/O, configuration or wrappers.
- `CronField.Accepts`: error values are not told apart, only acceptance and the resulting values.
- `CronSpec.CalculateNextCronRun`: asks that no step overflow, because an expression with out-of-range values drives the search with dates that do not exist.
- `TieredCoherence.NeverTooStale`: allows for the time an operation takes between its first clock reading and its write to the first tier; with that time zero it is the bound above.
