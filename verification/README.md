# Models and proofs for the social-publishing application

The project models the parts of the Django application whose behaviour spans many rows, many runs or many workers, and
proves properties of them. Each module names its source file in its header comment.

- **Analytics reconstruction** (`PostSeries`, `PeriodCards`, `Bundle`, with `Metrics` and `Sums`): cumulative per-post
  snapshots become per-day credits in one pass; the series flow through a bulk read into cards and an engagement rate.
  Values are reals.
- **Idempotency slots** (`Idempotency`): insert, re-read, finalize, release and sweep as steps of concurrent workers,
  with a gap between a failed insert and its re-read.
- **API-key verification cache** (`KeyCache`): a 30-second cache over key rows. Revocation saves a row and then
  invalidates; edits of the allowlist, and the admin's saves, invalidate from handlers inside a transaction that commits
  afterwards (Django's related managers open one, `pyproject.toml:7`; the cache itself is not transactional).
- **Publishing queue** (`SlotFinder`, `PostQueue`) and **recurring posts** (`Recurrence`, `CivilDates`); both take a
  post's own time from its platform posts (`PostTimes`).
- **Approval by e-mail** (`Approval`): single-use tokens over assignments, posts and the compliance gate.
- **Timed protocols**: the sync cadence and its ETA (`SyncCadence`), the rolling quota (`Quota`), the Redis lock
  (`Lock`).
- **Smaller algebra**: the gap scanner (`GapScan`), the caption fitter (`FitToken`), the key format (`TokenFormat`), the
  429 message (`QuotaMessage`, on `PythonText`), the aggregate status (`PostStatus`).

Where the source updates state, a class or a loop does so here, and its methods are proved against functions on values;
whole runs are sequences of states of those functions. What such a function means is read off once more in the plain
fields of rows and records (the lemmas named `...InFields` and their like). A property that the code does not have comes
with a concrete counterexample and, where a condition separates the two cases, with that condition as an
if-and-only-if.

What the proofs found:

- `ClonedAgainIff`: a second run of the same day clones a rule's posts again exactly when the first made any and the
  source's earliest platform post is untimed or on another date than the source. Both arise in use:
  `apps/content_intake/intake_calendar.py:34-36` moves a post and leaves its platform posts, and
  `apps/composer/views.py:578-590` does so beside published ones. With all of them untimed
  (`UntimedSourceIsClonedAgain`) every run makes all the clones again.
- `IntervalZeroFloodsIff`: the interval column admits zero, and such a rule makes 180 clones for one date in one run.
- `MonthStepsClip`: monthly dates are stepped from the previous date, so a day clipped by a short month stays clipped.
- `LateFinalizeFillsAnotherRow`, `LateReleaseDropsAnotherRow`: finalize and release name only the slot, so a worker
  outliving its 24 hours answers for the next owner's request, or deletes its row. `ReachesOwnRowIff` and
  `SweepSparesHoldersIff` say exactly when this cannot happen.
- `FillBeforeCommitIsServedStale`: the handlers of `apps/api_keys/signals.py` invalidate before their transaction
  commits, so a verification in between caches the old row and keeps serving a removed account.
  `AttachDuringClearIsServedStale`: so does a key attached between the listing and the delete of a reverse clear.
  `SplitFillServesRevokedKey`: with the read and the cache fill apart, a revoked key is accepted after its revocation
  invalidated. `CommitStaysCleanIff` and `FillStaysCleanIff` are the exact conditions, `RunStaysCleanIff` says that no
  other step makes the cache stale, and `EditsPropagate` that excluding the three schedules is enough.
- `SaveKeepsAnOldGate`: the composer's main save and the text-update service leave compliance gates alone, and a gate
  can be stamped for a caption read before a remote call, so a gate can stand for a text it was not issued for.
  `StepKeepsGatesIff` and `GatesStayCurrentIff` say exactly when; the review page itself never does it.
- `OverlappingChecksAreBounded`: quota checks and writes are not one step, so a window can hold one admission more than
  the limit for every further check outstanding, and `OverlappingChecksReachTheBound` makes it hold that many.
- `QueuesShareSlots`: two queues of one account that are assigned at one moment book the same slots, rank by rank.
- `SharingStartsIff`: two workers come to share a lock exactly when one enters beside the other's overrun body.
- `AtMost79Syncs`: a post is synced at most 79 times (24 + 24 + 23 + 8); four full bands cannot happen together.
- `EtaIsKeptIffInWindow`: on TikTok after 60 days and on Ghost after 30 the promised ETA is never kept.
  `YouTubeIsDueBeforeItsEta`: with excluded metrics the ETA can lie behind the cadence.
- `WaitFreesASlotIff`: a client that waits exactly the advertised delay is refused again whenever at least one second
  was left, because the delay is truncated and the window includes its end.
- `TwoTokensOutgrowTheLimit`: the caption fitter counts one token, but every token is replaced; `FitsReplacedIff` says
  for which captions that goes wrong. `FitIsIdempotentIff`: a caption cut down to nothing before its token starts with
  a blank line and is fitted to something else the second time.
- `StoresWhatWasSubmitted`: the reviewer's fields are compared with the copy read before the transaction, so a field
  left as read does not restore a value changed in between.
- Comments that the code does not follow: `apps/composer/status.py:38` promises "publishing" for a failed child beside a
  non-terminal one (`FailedAmongNonTerminal` says when that is the answer); `apps/analytics/services.py:123-128` lists
  profile visits among the metrics without a post fallback, but the code gives them one.

## Model

| member | source | states |
|---|---|---|
| PostSeries.PostSummedSeries | apps/analytics/services.py:196-239 | the pass returns on every day the credits of the reference reading, nothing outside the window, and the latest capture time among the rows |
| PostSeries.SpreadOpening | apps/analytics/services.py:221-232 | a first value inside the window is added evenly over publication day to snapshot day, and nowhere else |
| PostSeries.FirstRowEarns | apps/analytics/services.py:208-234 | a post's first row earns, on every day: an equal share from publication to its own day when published inside the window, nothing when published before it, its whole value on its own day when the publication day is missing or later |
| PostSeries.OnlyRowEarns | apps/analytics/services.py:208-234 | the same for a list of one row |
| PostSeries.LaterRowEarns | apps/analytics/services.py:235-238 | a later row earns its rise over the best of the post's earlier rows, on its own day |
| PostSeries.CreditsFollowHighWater | apps/analytics/services.py:196-239 | through any day a post's credits total its running maximum less its anchor; count resets neither lose nor repeat a credit |
| PostSeries.TotalIsSumOfGains | apps/analytics/services.py:190-239 | all days' credits together are the sum over posts of their high-water gains |
| PostSeries.GainIsGrowth | apps/analytics/services.py:153-172 | by the end of the window a post's gain is its best value, less its first one when it was published before the window |
| PostSeries.CreditsStayInWindow | apps/analytics/services.py:215-238 | with non-negative counts no credit is negative and none falls outside the window |
| PostSeries.PeakIsMaximum | apps/analytics/services.py:153-157 | the high-water mark used by the statements is the maximum value seen so far |
| PostSeries.PeakSoFar | apps/analytics/services.py:199-203 | at each row the rows just read are all the earlier rows of that post, so resetting at a new post id is right |
| PostSeries.LatestIsMaximum | apps/analytics/services.py:206-207 | the latest capture time is none exactly without captures, else their maximum |
| PeriodCards.SplitPartitions | apps/analytics/derive.py:27-35 | the two windows of a full series are its halves and put it together again |
| PeriodCards.WindowsOfAnyLength | apps/analytics/derive.py:27-35 | of a series of any length the current window is its last days, which the card plots, and the previous one the days before those |
| PeriodCards.CardShows | apps/analytics/derive.py:38-64 | a count shows the sum of its window, minutes and percentages the average, a lifetime total the last value |
| PeriodCards.WindowsConserve | apps/analytics/derive.py:38-64 | the two windows of a count, or of an average taken times the window's length, hold exactly the whole series |
| PeriodCards.DeltaRecoversBaseline | apps/analytics/derive.py:45-62 | value and delta give the previous window's value back whenever that is not zero; the delta of a zero previous value is zero |
| PeriodCards.TotalIsLatest | apps/analytics/derive.py:49-58 | a lifetime total shows its latest snapshot, and its delta is the growth since the end of the previous window |
| PeriodCards.NumeratorIsCardTotal | apps/analytics/derive.py:88-98 | summing the parts by day and then over the window equals summing each part's card, in both windows |
| PeriodCards.RateIsRatioOfCards | apps/analytics/derive.py:82-107 | the rate times the denominator's card is 100 times the total of its parts' cards; with a zero denominator the rate is 100 times that total |
| PeriodCards.RateDeltaComparesWindows | apps/analytics/derive.py:105-107 | the delta is the percentage change from the same ratio of the previous windows, and zero when that is zero |
| PeriodCards.RateOfAnyLengths | apps/analytics/derive.py:94-107 | for daily numerators and denominators of any lengths the rate compares their last days, and the delta the days before those |
| PeriodCards.PaddingAddsNothing | apps/analytics/derive.py:88-92 | padding series of different lengths adds nothing: the daily sums hold what the series hold |
| PeriodCards.SparklineRecoversNumerators | apps/analytics/derive.py:109-118 | a plotted point times that day's denominator is 100 times that day's numerator; it is zero where the denominator is |
| PeriodCards.FirstPresentIsPresent | apps/analytics/derive.py:83 | the denominator is one of the candidates in the data, and there is none only when no candidate is |
| PeriodCards.DenominatorPreference | apps/analytics/derive.py:83 | reach is preferred to impressions, those to views, those to plays |
| PeriodCards.PartKeysKeepAll | apps/analytics/derive.py:82 | the numerator has each engagement part of the data as often as the data has it, and no other metric |
| Metrics.Catalogue | apps/analytics/metrics.py:13-40 | which metrics are lifetime totals, minutes or percentages, which may be rebuilt from posts, and which are engagement parts |
| Bundle.SeriesFor | apps/analytics/services.py:92-117 | the per-metric read returns, day by day, the account's row, else the credited posts, else zero |
| Bundle.AccountAnalyticsBundle | apps/analytics/services.py:256-306 | the bulk read returns for every platform metric the same series as the per-metric read, and the latest capture among exactly the rows used |
| Bundle.SeriesAreUnique | apps/analytics/services.py:92-117 | the tables determine a series, so bulk and per-metric reads agree |
| Bundle.SeriesInTables | apps/analytics/services.py:92-117 | a day of a series is the account's row or zero when the window has an account row, else the posts' credits where a fallback is allowed, else zero |
| Bundle.CaptureTimesInTables | apps/analytics/services.py:277-301 | the captures behind a bundle are those of its account rows and of the post rows of every metric without account rows and with a fallback |
| Bundle.QueryResult | apps/analytics/services.py:266-273 | whatever holds exactly the stored rows of the metrics in the window is a result of the query |
| Bundle.CollectAccountRows | apps/analytics/services.py:272-290 | one loop over rows of all metrics builds each metric's own day map |
| Bundle.FillFallbacks | apps/analytics/services.py:291-304 | exactly the metrics without account rows and with a fallback are rebuilt from posts, and their captures count for freshness |
| Bundle.DayMapIsTable | apps/analytics/services.py:105-111 | the day map is the table, in whatever order rows arrive; it is empty exactly when the window has no account row |
| Bundle.FallbackConserves | apps/analytics/services.py:111-117 | for a metric rebuilt from posts, the two windows of its card hold exactly the posts' high-water gains |
| Bundle.CardHeadlineMatchesParts | apps/analytics/services.py:334-365 | the card's headline times the denominator's card is 100 times the total of the parts shown beneath it; the follower fallback is never used when a card is shown |
| Bundle.CardIsShownIff | apps/analytics/services.py:344-365 | a card is shown exactly for platforms with a numerator and a denominator metric, with one part per numerator metric |
| Idempotency.IdempotencyTable.Claim | apps/api/middleware.py:128-180 | every disposition: passthrough, claimed with a pending row, reused, in flight, or the stored answer |
| Idempotency.IdempotencyTable.Finalize | apps/api/middleware.py:183-201 | the slot's row, whoever owns it, takes status and body and keeps its fingerprint |
| Idempotency.IdempotencyTable.Release | apps/api/middleware.py:204-222 | only a pending row is deleted |
| Idempotency.IdempotencyTable.SweepStale | apps/api/tasks.py:33-55 | rows older than 24 hours go, pending or not; no other |
| Idempotency.StatementsOnASlot | apps/api/middleware.py:128-222 | what insert, finalize, release and sweep do to one slot, and that the slot-wise ones leave every other slot alone |
| Idempotency.RereadAnswers | apps/api/middleware.py:158-180 | a request whose insert failed is answered by the row: another fingerprint is a reuse, a pending row is in flight, anything else is replayed |
| Idempotency.StepsPossible | apps/api/middleware.py:128-222 | which steps are possible in which state; a crash, a sweep or time may always come |
| Idempotency.TimelyInFields | apps/api/tasks.py:33-55 | a run stays timely as long as no worker inside its route is older than 24 hours |
| Idempotency.TakesInFields | apps/api/middleware.py:204-222 | a step takes a row when it sweeps it after 24 hours or releases it, pending, for another worker |
| Idempotency.OneOwnerPerSlot | apps/api/middleware.py:128-180 | when no worker holds a claim over 24 hours, at most one live worker owns a slot, and it owns the stored row |
| Idempotency.ReplayIsAFinalizersAnswer | apps/api/middleware.py:172-201 | a replay is exactly the status and body that some worker with the same slot and fingerprint finalized earlier |
| Idempotency.FingerprintNeverChanges | apps/api/middleware.py:192-201 | a stored row keeps its fingerprint and age for as long as it exists |
| Idempotency.FinalizedOncePerSweep | apps/api/middleware.py:183-201 | between two finalizes of one slot a sweep removed the first one's row |
| Idempotency.ReachesOwnRowIff | apps/api/middleware.py:183-222 | in any run a worker's finalize or release acts on its own row exactly when no sweep and no other worker's release took that row since its insert |
| Idempotency.SweepSparesHoldersIff | apps/api/tasks.py:52-53 | a sweep leaves every holder its row exactly when every holder is within its 24 hours |
| Idempotency.LateFinalizeFillsAnotherRow | apps/api/middleware.py:198-201 | without the 24-hour bound a late finalize is replayed to the next owner's request |
| Idempotency.LateReleaseDropsAnotherRow | apps/api/middleware.py:218-222 | a run in which a late release deletes the pending row of a worker still working |
| KeyCache.KeyService.VerifyToken | apps/api_keys/services.py:278-316 | accepts exactly the live cached view, else the stored row, that is active, matches the digest and has a member as issuer; only active rows stay cached |
| KeyCache.AcceptedIff | apps/api_keys/services.py:278-316 | field by field: a key is accepted exactly when the view cached less than 30 seconds ago, else the stored row, has the digest presented, is neither revoked nor expired, and has an issuer who is still a member |
| KeyCache.UnknownKeyIsRefused | apps/api_keys/services.py:281-290 | without a fresh entry and a stored row nothing is accepted |
| KeyCache.KeyService.Revoke | apps/api_keys/services.py:222-233 | the first revocation time stays, and no later verification accepts the key |
| KeyCache.KeyService.Invalidate | apps/api_keys/services.py:236-252 | exactly this key's entry goes |
| KeyCache.KeyService.Save | apps/api_keys/signals.py:89-101 | a saved row leaves no cache entry behind |
| KeyCache.KeyService.SetAccounts | apps/api_keys/signals.py:54-57 | a forward edit of the allowlist invalidates its key |
| KeyCache.KeyService.ReverseChange | apps/api_keys/signals.py:59-68 | a reverse add or remove invalidates exactly the keys named |
| KeyCache.KeyService.ReverseClear | apps/api_keys/signals.py:70-86 | a reverse clear invalidates every key that had the account |
| KeyCache.EditsOfLinks | apps/api_keys/signals.py:54-86 | which links each edit of the relation adds and removes; rows and memberships stay |
| KeyCache.StatementsInSight | apps/api_keys/signals.py:54-101 | what a statement changes in its own transaction's sight |
| KeyCache.TablesChangeAtCommits | apps/api_keys/signals.py:54-101 | other requests see the tables change at commits and autocommitted saves only |
| KeyCache.StepsPossible | apps/api_keys/signals.py:54-101 | which steps are possible in which state; a transaction goes on once its handlers have run |
| KeyCache.AcceptedViewWasRecentlyStored | apps/api_keys/services.py:264-316 | in every interleaving a view accepted at t was the stored row later than t minus 30 s minus the longest fill delay |
| KeyCache.FetchedViewWasRecentlyStored | apps/api_keys/services.py:281-316 | the view a missed request read itself was stored no longer before its fill than the longest fill delay |
| KeyCache.InvalidatedKeyIsCurrent | apps/api_keys/services.py:236-252 | when every commit and every late fill so far was harmless, verifications of a key whose autocommitted saves have all invalidated see the stored row |
| KeyCache.EditsPropagate | apps/api_keys/signals.py:30-101 | saves and all relation edits propagate to every later verification in the runs where read and fill are one step, no key is attached between a clear's listing and its delete, and none is cached between a transaction's invalidation of it and the commit |
| KeyCache.SchedulesInFields | apps/api_keys/signals.py:54-101 | the three schedules that EditsPropagate excludes, transaction by transaction |
| KeyCache.CommitStaysCleanIff | apps/api_keys/signals.py:54-101 | from a cache without stale entries, the commit after a transaction's handlers leaves one exactly when a key whose row or allowlist it changes is cached at that moment and owed no other invalidation |
| KeyCache.ClearStaysCleanIff | apps/api_keys/signals.py:70-86 | for a reverse clear that is exactly when a cached key owed no other invalidation still has a link the clear deletes |
| KeyCache.FillStaysCleanIff | apps/api_keys/services.py:281-294 | a fill apart from its read leaves a stale entry exactly when the row was active, its key is owed no invalidation and the view is no longer stored |
| KeyCache.RunStaysCleanIff | apps/api_keys/signals.py:30-101 | over whole runs the cache never goes stale exactly when every commit and every late fill was harmless in that sense |
| KeyCache.ListsStayComplete | apps/api_keys/signals.py:70-86 | in every run without an attach during a clear, a clear's list has every key whose link its delete will take |
| KeyCache.FillBeforeCommitIsServedStale | apps/api_keys/signals.py:54-68 | a run without an attach during a clear and with atomic fills in which the removed account is served after handler and commit |
| KeyCache.AttachDuringClearIsServedStale | apps/api_keys/signals.py:70-86 | a run with atomic fills, none before a commit, in which the removed account is served after every handler and commit |
| KeyCache.SplitFillServesRevokedKey | apps/api_keys/services.py:281-294 | a run in which a revoked key is accepted after its revocation invalidated |
| SlotFinder.NextSlotDatetimes | apps/calendar/services.py:42-76 | the walk returns the front of the list of all slot times within 60 days |
| SlotFinder.NextSlotsAreTheEarliest | apps/calendar/services.py:42-76 | the result is the earliest active slot times after the given one, increasing, none skipped, as many as wanted or all; at least eight per slot unless enough were found |
| SlotFinder.SlotTimesInFields | apps/calendar/services.py:56-70 | a slot time is an active slot of its own weekday at its own time, after the given moment and within 60 dates |
| SlotFinder.WeekdaysCycle | apps/calendar/services.py:59 | weekdays run in a cycle from Monday, and 1 January 1970 was a Thursday |
| SlotFinder.TableInFields | apps/calendar/services.py:48 | the slots of an account come in the order of weekday and time, each once |
| SlotFinder.AllSlotsAreTheDays | apps/calendar/services.py:57-70 | the times walked over are exactly the slots of the dates, in increasing order |
| SlotFinder.HorizonHoldsEightWeeks | apps/calendar/services.py:56-58 | the 60-day horizon holds at least eight times of every active slot |
| PostQueue.Queue.AssignSlots | apps/calendar/services.py:79-113 | entries in position order hold the next slot times, the rest none; the queue's own platform posts follow their entries, those of other accounts keep their times, and posts take their earliest time |
| PostQueue.Queue.AddToQueue | apps/calendar/services.py:116-139 | the post goes to the top or one past the last, the others keep their order, and slots are assigned anew without touching other accounts |
| PostQueue.Queue.ReorderQueue | apps/calendar/services.py:142-147 | listed entries take the index of their last mention, and slots are assigned anew without touching other accounts |
| PostTimes.Earliest | apps/composer/services.py:20-43 | a post's time is the minimum over its timed children, none exactly when no child is timed |
| PostQueue.MoveKeepsTheRest | apps/calendar/services.py:125-137 | a move keeps positions distinct and the others' relative order, and puts the post strictly first or last |
| PostQueue.ReorderKeepsDistinctIff | apps/calendar/services.py:142-145 | a reorder keeps positions distinct exactly when no listed entry lands on an unlisted one's place |
| PostQueue.PermutationReorders | apps/calendar/services.py:142-145 | a full permutation numbers the entries as listed |
| PostQueue.PartialReorderCollides | apps/calendar/services.py:142-145 | a partial reorder that puts two entries on one place |
| PostQueue.RunKeepsPositionsDistinct | apps/calendar/services.py:116-147 | over any run of appends, priority inserts and full reorders positions stay pairwise distinct |
| PostQueue.TimesFollowOrder | apps/calendar/services.py:96-102 | assigned times strictly increase with position, and only a tail of the queue is unassigned |
| PostQueue.TimesByRank | apps/calendar/services.py:96-102 | entries stand in position order, and the k-th holds the k-th time while there is one |
| PostQueue.Queue.PostsInFields | apps/calendar/services.py:102-113 | in a valid queue the account's platform posts carry their entries' times, and every post its earliest time, none when no platform post is timed |
| PostQueue.StepsOfTheQueue | apps/calendar/services.py:116-147 | every move, and every reorder that lists each entry once, is a step of the runs |
| PostQueue.PriorityTakesFirstSlot | apps/calendar/services.py:125-139 | a priority insert takes the first slot |
| PostQueue.AppendTakesLastSlot | apps/calendar/services.py:129-139 | an appended entry takes the slot after everyone else's, if there is one |
| PostQueue.QueuesShareSlots | apps/calendar/services.py:79-98 | of two queues of one account assigned at one moment, an entry with a time shares it with the other queue's entry of the same rank and with no other |
| Recurrence.ComputeRecurrenceDates | apps/calendar/tasks.py:135-156 | the loop returns the leading recurrences up to the end date, at most the limit, none for an unknown frequency |
| Recurrence.DatesAreCompleteAndOrdered | apps/calendar/tasks.py:135-156 | for a positive interval the dates strictly increase inside (base, end], and every recurrence within the step limit is there |
| Recurrence.DayStepsAddUp | apps/calendar/tasks.py:142-145 | daily and weekly dates are counted from the base without drift |
| Recurrence.MonthStepsClip | apps/calendar/tasks.py:146-147 | the k-th monthly date lies k intervals of months after the base, on the least of the base's day and the lengths of the months visited |
| CivilDates.MonthLengths | apps/calendar/tasks.py:146-147 | the lengths of the months, leap years included |
| CivilDates.YearsAddUp | apps/calendar/tasks.py:146-147 | where each year starts, in closed form |
| CivilDates.AddMonthsLands | apps/calendar/tasks.py:146-147 | a month step lands in the intended month on the clipped day |
| Recurrence.Calendar.GenerateForRule | apps/calendar/tasks.py:30-129 | one rule adds its clones for the dates neither taken nor past, and records its run |
| Recurrence.Calendar.GenerateRecurringPosts | apps/calendar/tasks.py:18-132 | the daily run handles the active rules in order, counts what it added and stamps every rule it ran |
| Recurrence.DateIsKept | apps/calendar/tasks.py:36-47 | the k-th recurrence, k at most 180, is among a rule's dates exactly when it is within 90 days and not past the rule's end date |
| Recurrence.AddedWithinBounds | apps/calendar/tasks.py:36-60 | every clone a rule adds is for an untaken recurrence of an active rule, ahead of today, within 90 days and not past its end date |
| Recurrence.RunAddsWithinBounds | apps/calendar/tasks.py:30-126 | the same for every post a whole run adds |
| Recurrence.RecurrencesAreServed | apps/calendar/tasks.py:30-126 | after a run every such recurrence of every active rule has a clone or a post with the source's caption on its date |
| Recurrence.CloneDate | apps/calendar/tasks.py:64-108 | a clone is scheduled as many days off its recurrence date as the source's earliest child is off the source, and nowhere when all are untimed |
| Recurrence.CloneLandsIff | apps/calendar/tasks.py:64-108 | a clone is scheduled on its own date exactly when the source's time is on its earliest child's date (or it has no children) |
| Recurrence.CloneKeepsTimeOfDay | apps/calendar/tasks.py:64-108 | when the source's time is its earliest child's, every clone keeps the time of day |
| Recurrence.CloneKeepsOffsets | apps/calendar/tasks.py:84-102 | every timed child keeps its distance from the post's time; untimed children stay untimed |
| Recurrence.TakenAfterClones | apps/calendar/tasks.py:47-60 | a date is taken after a rule ran exactly when it was before or the clone of a chosen date falls on it |
| Recurrence.ClonedAgainIff | apps/calendar/tasks.py:47-108 | for every source and interval: a second run of the same day adds clones exactly when the first did and the source's clones do not land |
| Recurrence.SecondRunRepeats | apps/calendar/tasks.py:47-60 | each clone a second run of the same day adds repeats the rule and date of a clone the first one added |
| Recurrence.AtMostOneClonePerDate | apps/calendar/tasks.py:47-60 | over any number of runs at any times, beside any other rules, a rule with a positive interval whose clones land never has two clones for one date, and posts are only added |
| Recurrence.NothingMadeYet | apps/calendar/tasks.py:47-60 | a table that a rule has not added to yet meets the condition of AtMostOneClonePerDate |
| Recurrence.EveryDateIsCoveredIff | apps/calendar/tasks.py:47-78 | after a rule ran, every one of its dates still ahead carries a post with the source's caption exactly when the clones land or none was made |
| Recurrence.RunServesEveryDate | apps/calendar/tasks.py:30-126 | after one run every date still ahead of every due rule is taken by a post with that rule's caption or has a clone of the rule; where the clones land it is taken |
| Recurrence.UntimedSourceIsClonedAgain | apps/calendar/tasks.py:48-60 | for a source with only untimed children a second run of the same day makes as many clones as the first |
| Recurrence.IntervalZeroFloodsIff | apps/calendar/tasks.py:140-154 | interval zero gives 180 clones in one run exactly when the source's date is ahead, within the cut-off and not taken, and none otherwise |
| Approval.Desk.MintToken | apps/approvals/tokens.py:7-10 | a fresh token lives for the configured days, seven when none or zero is set; a taken token value inserts nothing |
| Approval.Desk.ResolveToken | apps/approvals/tokens.py:13-18 | finds exactly the unused token of the purpose that has not expired |
| Approval.Desk.ApplyReviewerEdits | apps/approvals/review_views.py:57-86 | stores exactly the fields that differ from the copy read and, if any does, clears gate and hash of every gated child |
| Approval.Desk.AssignForReview | apps/approvals/assignment_service.py:46-65 | a pending assignment, the post awaiting review, and one REVIEW token that lives for the configured days |
| Approval.Desk.PostReview | apps/approvals/review_views.py:112-274 | every branch of the review POST as one step of the protocol; it decides exactly when the page says so and rolls back on a failed insert |
| Approval.Desk.PostPublish | apps/approvals/review_views.py:309-324 | a live PUBLISH token is spent and the post scheduled once; otherwise nothing changes |
| Approval.ReviewDecidesIff | apps/approvals/review_views.py:112-166 | a review decides exactly when its token is stored, unused, unexpired and for review, and the decision can be carried out; otherwise nothing changes |
| Approval.ApprovalStoresTheEdits | apps/approvals/review_views.py:57-86 | an approval stores each field that differs from the copy read, keeps the others, and if any differs ungates every gated child |
| Approval.DecisionSpendsAndMints | apps/approvals/review_views.py:117-166 | a decision spends its token, a plain approval adds one fresh PUBLISH token, and no other token changes |
| Approval.PublishSchedulesIff | apps/approvals/review_views.py:309-324 | the PUBLISH page spends exactly a stored, unused, unexpired token of its purpose and schedules its assignment |
| Approval.StepsPossible | apps/approvals/review_views.py:112-324 | which steps are possible in which state; both pages may be posted at any time |
| Approval.ScheduledOnceAndOnlyIfApproved | apps/approvals/review_views.py:117-166 | in every run an assignment is scheduled at most once, only after its approval, and never when declined or pending |
| Approval.LeavesPendingIffTokenSpent | apps/approvals/review_views.py:117-149 | an assignment has left PENDING exactly when a REVIEW token of its own is spent, and it has at most one |
| Approval.ApprovalIsScheduledOrOpen | apps/approvals/review_views.py:151-166 | an approval is scheduled once exactly when no unspent PUBLISH token of it is left |
| Approval.DecisionsAreFinal | apps/approvals/review_views.py:119-149 | status and reason of a decided assignment never change again |
| Approval.DecisionReachesThePost | apps/approvals/review_views.py:119-231 | a decided review shows on assignment and post alike; a decline stores its reason and leaves text and gates alone; only "approve" mints a PUBLISH token and only "approve and publish" schedules |
| Approval.TokenLivesItsDays | apps/approvals/tokens.py:7-18 | a token works for exactly the configured days, seven when none or zero is configured |
| Approval.EditsNeverBypassTheGate | apps/approvals/review_views.py:57-86 | no review leaves a gate on a post whose text it changed, whatever stale copy it compared with; it leaves the children alone or ungates them all |
| Approval.StepKeepsGatesIff | apps/composer/services.py:186-224 | from gates that all stand for the stored texts, a save keeps them so exactly when it changes nothing or no child is gated, a stamp exactly when the text read is still stored, any other step always |
| Approval.GatesStayCurrentIff | apps/composer/console_publish.py:46-80 | over whole runs of reviews, autosaves, saves and stamps: gates stand for the stored texts throughout exactly when every save and every stamp met that condition |
| Approval.SaveKeepsAnOldGate | apps/composer/views.py:596-616 | for any two different texts, a run in which a save leaves the old text's gate on the new text |
| Approval.StoresWhatWasSubmitted | apps/approvals/review_views.py:68-83 | the post carries the submitted text exactly when every field left as read was still stored so |
| Approval.SavesStoreTheText | apps/composer/views.py:1157-1176 | both saves store the text; only the autosave touches the gates, and a stamp touches one child |
| SyncCadence.PostSyncInterval | apps/analytics/tasks.py:42-62 | the first row of the table above the age decides, none from 90 days on |
| SyncCadence.ScheduleInHours | apps/analytics/tasks.py:42-62 | the intervals, the windows per platform and the excluded metrics, in numbers |
| SyncCadence.LatestCaptured | apps/analytics/tasks.py:558-566 | the newest capture among the counted rows, none when there is no such row |
| SyncCadence.PostCadenceDue | apps/analytics/tasks.py:538-568 | due exactly when published, under 90 days, and no counted row is younger than the interval |
| SyncCadence.WritePostSnapshot | apps/analytics/tasks.py:351-365 | every fetched metric's row of the day is replaced or added with the current time, no other row changes |
| SyncCadence.Store.SyncIfDue | apps/analytics/tasks.py:638-651 | one post's turn in the hourly task: synced exactly when inside the platform's window and due |
| SyncCadence.AtMost79Syncs | apps/analytics/tasks.py:616-651 | in any life of a post the task syncs it at most 79 times, the i-th never before a stated earliest age |
| SyncCadence.EarliestTicksAllSync | apps/analytics/tasks.py:42-48 | a life that reaches every earliest age, and so 79 syncs |
| SyncCadence.DueIffEtaPassed | apps/analytics/freshness.py:91-113 | a passed ETA means due; with nothing excluded the converse holds; in general they differ exactly when, under 90 days, no counted row but some excluded one is younger than the interval |
| SyncCadence.EtaInFields | apps/analytics/freshness.py:91-113 | the promised time: none for platforms never fetched, drafts and posts of 90 days, five minutes ahead without a snapshot, else one interval after the last |
| SyncCadence.YouTubeIsDueBeforeItsEta | apps/analytics/tasks.py:394-396 | a due post whose ETA lies ahead |
| SyncCadence.EtaIsKeptIffInWindow | apps/analytics/tasks.py:638-649 | the loop takes a post whose ETA passed exactly when its age is within the platform's window |
| Quota.CheckPlatformQuota | apps/api/limits.py:124-163 | refuses exactly when the consuming rows of the last 24 hours reach the limit; the delay is the oldest row's remaining time, floored at one second, or 60 when it is gone |
| Quota.CountsInFields | apps/api/limits.py:99-121 | a row counts when it is scheduled, publishing, published or failed and was updated at most 24 hours ago |
| Quota.LimitInFields | apps/api/limits.py:50-84 | the limit is the account's override, zero included, else its platform's number, else 50 |
| Quota.StepsPossible | apps/api/limits.py:124-163 | which steps are possible in which state; a check passes exactly with room left |
| Quota.RetryAfterIsClose | apps/api/limits.py:150-152 | the delay is at least a second and within a second of the remaining time |
| Quota.WaitFreesASlotIff | apps/api/limits.py:116-121 | waiting exactly the delay frees a slot if and only if less than a second was left |
| Quota.OverlappingChecksAreBounded | apps/api/limits.py:99-163 | in every run with at most c checks outstanding at a time, no closed 24-hour interval holds more than limit + c - 1 admissions, whatever else is saved in between |
| Quota.NoWindowExceedsTheLimit | apps/api/limits.py:99-163 | with one check outstanding at a time no closed 24-hour interval holds more admissions than the limit |
| Quota.OverlappingChecksReachTheBound | apps/api/limits.py:124-163 | for every positive limit and number of checks a run that admits limit + c - 1 at one moment |
| Quota.ZeroOverrideNeverAdmits | apps/api/limits.py:69-84 | an override of zero locks the account out, whatever its platform's limit and however many check at once |
| Lock.RedisLock.Acquire | jobs/locks.py:31-44 | the worker enters exactly when the name's key is gone or expired |
| Lock.RedisLock.CompareAndDelete | jobs/locks.py:13-19 | the key goes only when it still holds the caller's token |
| Lock.RedisLock.Exit | jobs/locks.py:45-48 | leaving runs the release script with the worker's own token |
| Lock.StepsPossible | jobs/locks.py:31-48 | which steps are possible in which state |
| Lock.OneHolderInTime | jobs/locks.py:31-48 | in every reachable state at most one worker is inside a name with its TTL running |
| Lock.ExclusiveWhenBodiesEndInTime | jobs/locks.py:31-48 | if every body ends within its TTL, at most one worker per name is inside, throughout |
| Lock.LeaveSparesNewerHolders | jobs/locks.py:10-19 | a leave, however late, never removes a newer holder's key |
| Lock.LeaveFreesIffInTime | jobs/locks.py:13-19 | a leave frees the name exactly when it is in time; a late one changes no key that can be read |
| Lock.EntersOnlyPastDeadlines | jobs/locks.py:42-43 | a worker that enters shares the name only with workers past their deadlines |
| Lock.EntersIffNobodyInTime | jobs/locks.py:42-43 | with a positive TTL, and while no worker crashes, a worker gets in exactly when no worker inside the name is in time |
| Lock.SharingStartsIff | jobs/locks.py:31-48 | two workers begin to share a name exactly when one is let in beside the other past its deadline |
| Lock.SlowBodySharesTheName | jobs/locks.py:31-48 | a run in which a body outlives its TTL and two workers are inside |
| GapScan.Scan14DayGaps | apps/content_intake/calendar_agent.py:27-58 | the loop's proposals are a plan: a day gets one exactly when unscheduled, with fewer than three busy days before it in its block and an eligible candidate left, and then the first such candidate |
| GapScan.FirstUnused | apps/content_intake/calendar_agent.py:42-46 | the first unused candidate whose target has come, none exactly when there is none |
| GapScan.ProposalsAreSound | apps/content_intake/calendar_agent.py:39-49 | no candidate is proposed twice or before its target, and no scheduled day gets one |
| GapScan.PlanInFields | apps/content_intake/calendar_agent.py:27-58 | day by day: a proposal exactly when the day is free, fewer than three days before it in its block are busy and a candidate is left whose target has come; it is the first such candidate |
| GapScan.ListInFields | apps/content_intake/calendar_agent.py:47-58 | the list has exactly the plan's proposals, each on its own day, in the order of the days |
| GapScan.BlocksKeepTheCadence | apps/content_intake/calendar_agent.py:34-38 | each seven-day block gets at most three proposals |
| GapScan.HasUnusedIff | apps/content_intake/calendar_agent.py:42-46 | an unused eligible candidate exists exactly when more are eligible than were used |
| GapScan.DaysDependOnTargetsOnly | apps/content_intake/calendar_agent.py:27-58 | which days of a plan get a proposal depends only on the scheduled days and the multiset of target dates, not on the candidates' order or identity |
| GapScan.ScansProposeTheSameDays | apps/content_intake/calendar_agent.py:27-58 | two scans with the same scheduled days and target dates propose the same days, one for one |
| FitToken.FitHasToken | apps/composer/generation.py:72-86 | every result has the token; once, when the caption had it at most once or was cut |
| FitToken.FitsWithReserveIff | apps/composer/generation.py:72-86 | with the URL reserve the result fits exactly for limits of at least 130, and it exceeds the limit exactly below 18 |
| FitToken.FitsOnceReplaced | apps/publisher/links.py:54-56 | for limits of at least 130 and a caption with the token at most once, any URL of up to 130 characters in its place stays in the limit |
| FitToken.FitsEveryUrlIff | apps/publisher/links.py:54-56 | a text fits for every such URL exactly when it does with the longest at each of its tokens |
| FitToken.FitKeepsTheFront | apps/composer/generation.py:75-86 | the result is the whole caption with its token, the bare token, or a front part of what stood before the token |
| FitToken.FitKeepsAsMuchAsFits | apps/composer/generation.py:80-86 | a cut keeps every front part of the caption that fits with the break and the longest URL, ends in no white space and does not reach into the lead-in to the token |
| FitToken.CaptionInFields | apps/composer/generation.py:75-77 | the stripped caption itself when it has the token, else the caption with the token after its lead-in |
| FitToken.StripInFields | apps/composer/generation.py:75 | stripping takes white space from both ends, and all of it |
| FitToken.FitsReplacedIff | apps/composer/generation.py:72-86 | for limits of at least 130, the fitted text stays in the limit for every URL of up to 130 characters exactly when the caption with its token is cut or has room for the longest URL at each of its tokens |
| FitToken.TwoTokensOutgrowTheLimit | apps/composer/generation.py:78-80 | a caption with two tokens that is accepted for 148 and becomes 260 characters |
| FitToken.FitIsIdempotentIff | apps/composer/generation.py:72-86 | fitting twice equals fitting once unless the caption was cut with room for a head and had none before its token |
| FitToken.GenerateVariants | apps/composer/generation.py:578-610 | every non-Ghost variant is its fitted draft, and is over its limit exactly when that is below 18 |
| FitToken.VariantInFields | apps/composer/generation.py:578-610 | a non-Ghost variant is its fitted draft and is over exactly when it is longer than the limit |
| TokenFormat.PrintThenParse | apps/api_keys/services.py:100-127 | every printed secret of an accepted length parses back, underscores in the secret included |
| TokenFormat.ParsesIffPrinted | apps/api_keys/services.py:100-127 | a text parses to a pair exactly when it is that pair's printed form with the secret's own lookup |
| TokenFormat.PrintIsInjective | apps/api_keys/services.py:204-207 | no two secrets share a printed form |
| QuotaMessage.ParseQuotaMessage | apps/api/api.py:241-263 | the loop collects the fields of the words in order, the last one winning, and the headers of the numeric ones |
| QuotaMessage.MessageText | apps/api/limits.py:166-172 | the text of the message |
| QuotaMessage.NumbersSurviveAnyTier | apps/api/limits.py:166-172 | limit, remaining and delay come back from every message, as fields and as headers |
| QuotaMessage.TierSurvivesIff | apps/api/api.py:248-251 | the tier comes back exactly when it has no white space and is no numeral, and then the fields are exactly the five |
| PythonText.DecReadsBack | apps/api/api.py:251 | a printed number is all digits and reads back as itself |
| PythonText.SpacesByCode | apps/api/api.py:249 | the white space characters, one by one |
| PostStatus.CombineIsMeet | apps/composer/status.py:27-67 | the result is the greatest status at or below every child's, in the workflow order with published and failed side by side |
| PostStatus.StagesInOrder | apps/composer/status.py:12-26 | the stages of the workflow, earliest first |
| PostStatus.EarliestStageWins | apps/composer/status.py:60-67 | with a child that is neither published nor failed the earliest stage is the result |
| PostStatus.TerminalStages | apps/composer/status.py:45-59 | published and failed children alone give their common status, both together "partially published", no child a draft |
| PostStatus.DependsOnTheSetOnly | apps/composer/status.py:43-49 | order, repetition and blank children do not matter |
| PostStatus.GroupsCombineIff | apps/composer/status.py:27-67 | deriving over two groups' results equals deriving over all exactly when both groups have a status, or neither has, or a child is a draft |
| PostStatus.FailedAmongNonTerminal | apps/composer/status.py:38-67 | a failed child beside a non-terminal one gives "publishing" exactly when a child is publishing and none is earlier |

## Left out

- Rounding of deltas and rates, and floating point: values are reals.
- Time zones and daylight saving: a date is the day of a UTC wall clock.
- Python's upper bound on dates (year 9999) and on integers.
- Database isolation below one atomic block: the token is re-read without a row lock, so two truly simultaneous posts of
  one review link are outside the model; atomic blocks are serial steps.
- The EXPIRED assignment status, which no modelled code sets; notification mails, action rows and page rendering.
- Stripping and lower-casing of the decision and reason fields of the review form.
- Deletion of posts, keys, accounts and assignments, and edits of a key's lookup prefix.
- Saves that bypass Django's signals (`queryset.update` on key rows).
- The per-children effects of `schedule_now`: it is one counted event.
- The order of saves inside one quota admission: a row is stamped and enters its consuming status in one step.
- The key row and its allowlist are two queries (`apps/api_keys/services.py:285-289`) and are read as one here; a
  request accepts its view at once, except as `KeyCache.FetchedViewWasRecentlyStored` says of one that missed.
- Row locks between transactions that edit allowlists: the statements hold for the interleavings that locks would forbid
  as well. Without a Redis URL the cache is one per process (`config/settings/base.py:159-164`) and an invalidation does
  not reach the other workers; here the cache is shared.
- The platform posts that the composer's save adds and removes and its mark for posts written by hand; the publish
  engine's own check of gate and hash at dispatch.
- Gates are issued for the effective caption (`apps/composer/console_publish.py:52-74`), and the hash covers no more;
  here a gate stands for title, caption and first comment, as the editors that clear gates treat it, so in
  `Approval.StepKeepsGatesIff` a save of the title alone makes it old.
- Hashing and the secret digest: a lookup function and an opaque digest.
- Unicode digits in `isdigit`: only ASCII digits are digits here.
- Statuses outside the known ones in `PostStatus`: their ties depend on the iteration order of a set.
- The writers of captions (chat models and the regular-expression clean-up): drafts are arbitrary texts.
- The branches of the link resolver without a published sibling: they do not lengthen the text.
- The queries before the scan loop: its candidates and scheduled days are parameters.
- Account-level freshness and the account part of the hourly task, hero cards, labels and platform catalogues beyond the
  metric kinds: they would add only easy members.
- Media attachments, tags and notes of cloned posts.
- Last-used timestamps and failed-authentication counters of API keys.
