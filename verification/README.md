# Search trends: a verified model

This project models the core of the search-trends service in Dafny and proves what its design
promises. The service reads search events from Kafka, drops blocked queries, counts the others in a
sliding window of per-second buckets, and serves a cached Top-N.

`dafny verify dfyconfig.toml` checks everything.

## How it is built

- **The sliding window.** `SlidingWindow` is a machine whose whole state is a plain list of events:
  an expiry deletes the events below the cutoff, an accepted event deletes those that hold its slot
  for another second and is appended. `Aggregation.Aggregator` is the mutable aggregator: an array of
  buckets with one map each, the redundant global counters, the cache and the dirty flag. A ghost
  trace of its steps ties it to the machine: in every reachable state, for every sequence of clock
  values, ring and counters both represent the machine's list, and the cache is the exact Top-N of
  the list at the latest actual rebuild.
- **Ranking.** `TopHeap` is the bounded heap, driven as Go's `container/heap` drives it. Map iteration
  picks keys in an arbitrary order, so its result is proved for every order.
- **Normalization.** `Text` defines the normal form of a query as split at spaces, delete controls,
  lower-case, drop empty words, join. `Normalizers` has the two one-pass loops of the service, proved
  against it, and decides for which texts they agree.
- **Stop list, consumer, service.** `StopList.Manager` publishes fresh snapshots through one pointer.
  `KafkaConsumer` runs against arbitrary answers of reader, decoder and handler; its log of calls is
  judged by a protocol automaton. `Service.App` composes the handler with the consumer; every run of it,
  with stop-list updates and rebuilds between the steps of a round, is one of the pure machine
  `Service.RunService`. `Api.SearchTrendsHandler` has the API operations.

Time is an integer number of nanoseconds since the Unix epoch and an input of each step, because the
clock is read before the lock is taken. Each locked region is one step. `unicode.IsSpace` and
`unicode.IsControl` are written out; of `unicode.ToLower` only two laws are assumed, by the type
`Text.Lower`: it is idempotent, and visible runes stay visible.

## Where the code does less than its documentation says

- **Exact counts** (lines 87 and 342 of the service's README.md). Validation accepts events up to the
  allowed skew in the future and events exactly one window old; both share a slot with a live second of
  the window and clear it. `Aggregation.ValidationAdmitsLoss` gives two such runs in the documented
  configuration: a query with one event in the window has no count.
  `SlidingWindow.CountExactIffAdmissible` decides the promise for every run with a monotone clock: each
  query's counter is the window's count, after every step and after a rebuild at the same clock, if and
  only if every event, on arrival, is not behind the window and shares its slot with no other second in
  it. `Aggregation.NextEventDisplaces` says which second is lost otherwise. The rebuild matters: an
  event behind the window can stand in for the one of the same query that it clears, until it is
  dropped itself.
  The window of that theorem starts at the cutoff and has no end, so accepted events ahead of the clock
  count in it, as they do in the code; `SlidingWindow.ExactUpToClockIff` says when the counts are those
  of the seconds up to the clock's own, and `SlidingWindow.UpToClockIffInWindow` that the counted events
  are those of these seconds after every step if and only if each arrived in them. Events in the Unix
  second 0 never expire (`SlidingWindow.SentinelNeverExpires`), since that second marks an empty bucket.
- **Blocked queries are rejected** (line 99 of the service's README.md). The stop list deletes tabs and
  line breaks where the aggregator turns them into spaces, so a tab inside a blocked phrase gets it
  counted under the blocked key. `Service.ProtectedIffNoControlGap` says exactly for which queries the
  promise holds.
- **The window is the last `Window`.** The cutoff (internal/aggregator/aggregator.go:284) subtracts a number
  of buckets from a number of seconds. `SlidingWindow.KeepsLastWindowIff` decides for every ring what
  that keeps: exactly the instants of the last `bucketCount` buckets if and only if a bucket is one
  second, or the only bucket is longer. Shorter buckets stay too long (`SlidingWindow.NeverOverstaysIff`,
  with `Aggregation.HalfSecondBucketsKeep` as an instance), longer ones go too early
  (`SlidingWindow.NeverForgetsIff`, `Aggregation.TwoSecondBucketsForget`). `SlidingWindow.CountsLastWindowIff`
  and `Aggregation.ConfiguredWindowIff` say the same of counts and of configurations.

## Model

| member | source | states |
|---|---|---|
| `Orders.LexLessIff` | internal/aggregator/aggregator.go:387-387 | a string comes before another exactly if it is a proper prefix or has the smaller rune at the first difference |
| `Ranking.BetterIff` | internal/aggregator/aggregator.go:382-388 | an item is better exactly if its count is higher, or equal with a query that comes first |
| `Ranking.BetterIsStrictTotalOrder` | internal/aggregator/aggregator.go:382-388 | the ranking of items is a strict total order |
| `Ranking.LessIsConverse` | internal/aggregator/aggregator.go:405-411 | the heap's comparison is the exact converse of the ranking, so its root is the worst item |
| `Ranking.RankingExists` | internal/aggregator/aggregator.go:376-388 | every finite set of items has a strictly ordered, duplicate-free, complete ranking |
| `Ranking.SelectionIsPrefix` | internal/aggregator/aggregator.go:342-380 | a sorted selection that nothing left out beats is a prefix of every full ranking, so the ranking is unique |
| `Ranking.TopNMeaning` | internal/aggregator/aggregator.go:342-374 | a Top-N is strictly ordered, has min(limit, positive counters) items, all of them real, and beats everything left out |
| `Ranking.TopNIff` | internal/aggregator/aggregator.go:342-388 | the Top-N is the one list whose items show positive counters, whose counts descend with queries ascending among equals, and which, when full, leaves out only queries of lower count, or equal count and later in order |
| `Ranking.SmallerLimitIsPrefix` | internal/aggregator/aggregator.go:155-163 | cutting the cached list gives the Top-N of the smaller limit |
| `Orders.Sort` | internal/aggregator/aggregator.go:376-380 | sorted permutation of the argument |
| `TopHeap.RootIsWorst` | internal/aggregator/aggregator.go:363-366 | in a heap nothing is worse than the root |
| `TopHeap.SiftUpStep` | internal/aggregator/aggregator.go:358-361 | one exchange of the sift-up moves the only violation to the parent |
| `TopHeap.SiftDownStep` | internal/aggregator/aggregator.go:363-366 | one exchange of the sift-down moves the only violation to the chosen child |
| `TopHeap.TopItemHeap.Swap` | internal/aggregator/aggregator.go:413-415 | exchanges two items |
| `TopHeap.TopItemHeap.Push` | internal/aggregator/aggregator.go:417-419 | keeps the heap order and adds exactly the item |
| `TopHeap.TopItemHeap.Fix` | internal/aggregator/aggregator.go:363-366 | restores the heap order after the item at a place was replaced, keeping the items |
| `TopHeap.Consider` | internal/aggregator/aggregator.go:354-366 | after each scanned counter the heap holds exactly the best of those seen, up to the limit |
| `TopHeap.SortedHeapIsTop` | internal/aggregator/aggregator.go:369-373 | the sorted heap is the prefix of the full ranking |
| `TopHeap.BuildTop` | internal/aggregator/aggregator.go:342-374 | the exact Top-N for every map, limit and iteration order: positive counters with their counts, counts descending, queries ascending among equals, and only a full list leaves out a query, for a lower count or the same count and a later query |
| `GoTime.ZeroTimeIsYearOne` | internal/aggregator/aggregator.go:252-254 | the zero time is 1969 Gregorian years before the Unix epoch |
| `GoTime.BucketSecondMonotone` | internal/aggregator/aggregator.go:122-122 | truncation to buckets of any size never orders two instants the other way round |
| `GoTime.BucketIndex` | internal/aggregator/aggregator.go:390-397 | Go's signed remainder corrected to the least non-negative residue, also before 1970 |
| `GoTime.SlotClash` | internal/aggregator/aggregator.go:390-397 | different seconds in one slot are at least a ring apart, so a ring of consecutive seconds has distinct slots |
| `SlidingWindow.CutoffMeaning` | internal/aggregator/aggregator.go:284-284 | the cutoff is the second in which the clock's bucket starts, less the number of buckets, plus one |
| `SlidingWindow.StepSpares` | internal/aggregator/aggregator.go:127-141 | a step keeps exactly the events it does not remove, then appends its own |
| `SlidingWindow.LiveAreSurvivors` | internal/aggregator/aggregator.go:283-314 | for every run and clock: counted are exactly the accepted events that no later expiry passed and no later event displaced |
| `SlidingWindow.LiveAreAccepted` | internal/aggregator/aggregator.go:139-140 | only accepted events are counted |
| `SlidingWindow.CacheCoherent` | internal/aggregator/aggregator.go:194-203 | in every reachable state a clean cache was built from exactly the events counted now |
| `SlidingWindow.RebuildIsCurrent` | internal/aggregator/aggregator.go:189-206 | a rebuild leaves a clean, current cache also through its early return, and a second one at the same time changes nothing |
| `SlidingWindow.CacheIsSnapshot` | internal/aggregator/aggregator.go:194-203 | a stale cache holds the events counted right after the latest actual rebuild, with its time |
| `SlidingWindow.LaterRebuildsSkipped` | internal/aggregator/aggregator.go:195-198 | every rebuild after that one changed nothing |
| `SlidingWindow.SentinelNeverExpires` | internal/aggregator/aggregator.go:289-291 | an event in second 0 outlives every expiry |
| `SlidingWindow.ExactStep` | internal/aggregator/aggregator.go:127-141 | from an exact state, the events counted after a step are those of the window if and only if its event is admissible |
| `SlidingWindow.ExactIffAdmissible` | internal/aggregator/aggregator.go:283-299 | with a monotone clock, the list of counted events is that of the accepted events not older than the window, those ahead of the clock included, after every step if and only if every event was admissible on arrival |
| `SlidingWindow.MiscountsIffInadmissible` | internal/aggregator/aggregator.go:127-141 | an event arriving in an exact state makes some query's count differ from the window's, at once or after a rebuild at the same clock, if and only if it is inadmissible |
| `SlidingWindow.CountExactStep` | internal/aggregator/aggregator.go:127-141 | from an exact state, one more step of the machine keeps all counts exact, also through a rebuild, if and only if it is admissible |
| `SlidingWindow.CountExactIffAdmissible` | internal/aggregator/aggregator.go:283-299 | for every run with a monotone clock: every query's count is the window's after every step, and after a rebuild at the same clock, if and only if every event was admissible on arrival |
| `SlidingWindow.WindowAndAhead` | internal/aggregator/aggregator.go:257-259 | a query's count in the window is that of the seconds from the cutoff to the clock's plus its events ahead of the clock |
| `SlidingWindow.ExactUpToClockIff` | internal/aggregator/aggregator.go:257-259 | in an admissible run the counts are those of the seconds from the cutoff to the clock's if and only if no accepted event lies ahead of the clock |
| `SlidingWindow.ExactSlidingWindow` | internal/aggregator/aggregator.go:127-141 | when events arrive in the window, each query's count is the number of its accepted events in the window, after every step |
| `SlidingWindow.UpToClockIffInWindow` | internal/aggregator/aggregator.go:127-141 | for every run with a monotone clock: the counted events are the accepted ones from the cutoff to the clock's second, after every step, if and only if every event arrived in those seconds |
| `SlidingWindow.CacheIsPublished` | internal/aggregator/aggregator.go:194-203 | when events arrive in the window, the cache is built from exactly the accepted events of the window at the latest actual rebuild |
| `SlidingWindow.CacheIsAdmissible` | internal/aggregator/aggregator.go:194-203 | the same for every admissible run, with the accepted events ahead of the clock included |
| `SlidingWindow.NeverForgetsIff` | internal/aggregator/aggregator.go:284-284 | no instant of the last window is forgotten if and only if buckets are at most one second or there is just one |
| `SlidingWindow.NeverOverstaysIff` | internal/aggregator/aggregator.go:284-284 | no instant outlasts the window if and only if buckets are at least one second |
| `SlidingWindow.KeepsLastWindowIff` | internal/aggregator/aggregator.go:284-284 | for every ring: expiry keeps exactly the instants of the last window if and only if a bucket is one second, or the only bucket is longer |
| `SlidingWindow.LastWindowInstants` | internal/aggregator/aggregator.go:284-284 | the last window holds all of the last n-1 bucket lengths and nothing n bucket lengths back |
| `SlidingWindow.CountsLastWindowIff` | internal/aggregator/aggregator.go:283-299 | for every ring: the window's counts are the numbers of accepted events with a time in the last window, for all events up to now, if and only if a bucket is one second, or the only bucket is longer |
| `SlidingWindow.LastWindowRun` | internal/aggregator/aggregator.go:127-141 | with such buckets, each query's count in an admissible run is the number of its accepted events with a time in the last window |
| `SlidingWindow.OneSecondWindow` | internal/aggregator/aggregator.go:284-284 | with one-second buckets the window holds all of the last n-1 seconds and nothing n seconds back |
| `SlidingWindow.DisplacementBound` | internal/aggregator/aggregator.go:129-137 | a displaced event lies exactly one window from the new one: which second is lost, for events in, ahead of and behind the window |
| `SlidingWindow.FutureEventDropsOldest` | internal/aggregator/aggregator.go:134-137 | after an event one second ahead of the clock, another query's count is 0 instead of 1 in the oldest second of the documented window |
| `SlidingWindow.BoundaryEventDropsCurrent` | internal/aggregator/aggregator.go:260-262 | after an event one window old, another query's count is 0 instead of 1 in the current second |
| `Ring.SlotPlacement` | internal/aggregator/aggregator.go:129-139 | a non-empty bucket lies in the slot of its second, and no two carry the same second |
| `Ring.RingSumIsCount` | internal/aggregator/aggregator.go:129-141 | the global counter of a query is the sum of its counts over the ring, present exactly when positive |
| `Ring.ClearedRepresents` | internal/aggregator/aggregator.go:301-314 | emptying a bucket forgets exactly the events of its slot |
| `Ring.PutConsistent` | internal/aggregator/aggregator.go:139-140 | counting an event in its bucket and in the counters keeps both in step |
| `Ring.ExpireSlot` | internal/aggregator/aggregator.go:287-296 | one round of the expiry loop removes the slot's events exactly when they are stale, and reports it |
| `Aggregation.Prepare` | internal/aggregator/aggregator.go:58-82 | exactly which configurations are refused; what is configured is kept, and bucket size, query length and skew get their defaults only if not positive |
| `Aggregation.New` | internal/aggregator/aggregator.go:58-102 | refuses exactly these configurations; otherwise field by field the configuration in force, as many buckets as fit the window, and an empty aggregator created at the clock value |
| `Aggregation.Config.NormalizeLimit` | internal/aggregator/aggregator.go:272-281 | the requested limit if it is positive and not above the maximum, the default if it is not positive, the maximum if it is above |
| `Aggregation.VerdictIff` | internal/aggregator/aggregator.go:251-270 | from the time, the clock and the words of the query alone: exactly when an event is without a time, from the future, expired, empty, too long, or accepted in which bucket and under which key |
| `Aggregation.AcceptedIsPlausible` | internal/aggregator/aggregator.go:257-262 | with one-second buckets and a skew below the window, accepted seconds lie within one window of the clock |
| `Aggregation.ValidationAdmitsLoss` | internal/aggregator/aggregator.go:251-270 | in the documented configuration, whatever the lower-casing, an accepted "aa" a second ahead of the clock or one window old leaves an accepted "a" of the window with count 0 |
| `Aggregation.ConfiguredWindowIff` | internal/aggregator/aggregator.go:58-87 | for every valid configuration: the ring keeps exactly the instants of the last `Window` if and only if a bucket is one second, or the whole window is one longer bucket |
| `Aggregation.TwoSecondBucketsForget` | internal/aggregator/aggregator.go:284-284 | with two-second buckets an event 200 seconds old is accepted into a five-minute window and gone after a rebuild at the same clock |
| `Aggregation.HalfSecondBucketsKeep` | internal/aggregator/aggregator.go:284-284 | with half-second buckets a five-minute window still counts an event 500 seconds old after a rebuild |
| `Aggregation.ArrivedIsPlausible` | internal/aggregator/aggregator.go:251-262 | every event of a trace was within one window of its clock, under the same configuration |
| `Aggregation.NextEventDisplaces` | internal/aggregator/aggregator.go:127-137 | in every reachable state, the next accepted event removes unexpired events only exactly one window away |
| `Aggregation.Aggregator.constructor` | internal/aggregator/aggregator.go:89-98 | empty ring, counters and cache, created at the clock value |
| `Aggregation.Aggregator.Validate` | internal/aggregator/aggregator.go:251-270 | computes the verdict on an event |
| `Aggregation.Aggregator.SubtractCounts` | internal/aggregator/aggregator.go:302-310 | subtracts a bucket in any order; a counter is deleted at exactly zero, never below |
| `Aggregation.Aggregator.ClearBucketLocked` | internal/aggregator/aggregator.go:301-314 | ring and counters forget the events of one slot and nothing else |
| `Aggregation.Aggregator.ExpireLocked` | internal/aggregator/aggregator.go:283-299 | removes exactly the stale events and reports whether there were any |
| `Aggregation.Aggregator.ExpireBucketLocked` | internal/aggregator/aggregator.go:287-296 | one round of the expiry loop on the ring itself |
| `Aggregation.Aggregator.CountLocked` | internal/aggregator/aggregator.go:127-140 | expiry, displacement and count of an accepted event on the list of events |
| `Aggregation.Aggregator.Add` | internal/aggregator/aggregator.go:104-146 | one step of the machine and one status for each verdict; zero time, future, expired, empty and too long decided by timestamp, clock, window, skew and words, and an accepted event counted under its joined words in its bucket |
| `Aggregation.Aggregator.RebuildTop` | internal/aggregator/aggregator.go:171-207 | one step of the machine; the cache is then the exact Top-N of the counters |
| `Aggregation.Aggregator.GetTop` | internal/aggregator/aggregator.go:148-169 | the exact Top-N of the snapshot for the limit in force, as its reader sees it, with its time; when events arrive in the window, that of the accepted events of the window at the latest actual rebuild |
| `Aggregation.Aggregator.TakeSnapshot` | internal/aggregator/aggregator.go:229-240 | the exact Top-N of the snapshot, its time and the window length in whole seconds, or the context's error |
| `Aggregation.Aggregator.CountersAreRingSums` | internal/aggregator/aggregator.go:129-141 | redundant-sum invariant in every reachable state |
| `Aggregation.Aggregator.CleanCacheIsExact` | internal/aggregator/aggregator.go:194-203 | a clean cache is the exact Top-N of the current counters |
| `Aggregation.Aggregator.CountersAreExact` | internal/aggregator/aggregator.go:127-141 | the exact sliding window for the counters themselves |
| `Aggregation.Aggregator.CountersExactIffAdmissible` | internal/aggregator/aggregator.go:127-141 | in a valid aggregator whose earlier events were admissible, the counters read the window's count for every query, now and after a rebuild at the same clock, if and only if the last step was admissible, too |
| `Text.SpaceRunes` | internal/aggregator/normalizer.go:34-34 | the 25 space runes |
| `Text.ControlRunes` | internal/aggregator/normalizer.go:43-43 | the 65 control runes |
| `Text.TrimKeepsWords` | internal/aggregator/normalizer.go:22-22 | trimming does not change the words of a query |
| `Text.CanonGrows` | internal/aggregator/normalizer.go:51-53 | more text never shortens the normal form, so the early length check is final |
| `Text.CanonEmptyIff` | internal/aggregator/normalizer.go:57-59 | the normal form is empty exactly when no word remains |
| `Text.CanonIdempotent` | internal/aggregator/normalizer.go:33-56 | normalizing a normal form changes nothing |
| `Normalizers.CollapseWithin` | internal/aggregator/normalizer.go:30-56 | the loop with its early exit writes the normal form or finds it too long |
| `Normalizers.NormalizeQuery` | internal/aggregator/normalizer.go:17-66 | the normal form; empty exactly when no word remains, too long exactly when it exceeds the limit |
| `Normalizers.WrittenNotLonger` | internal/aggregator/normalizer.go:28-49 | the loop never writes more runes than it reads |
| `Normalizers.NormalizedIsFixed` | internal/aggregator/normalizer.go:17-66 | a successful result normalizes to itself under the same limit |
| `Normalizers.StopNormalize` | internal/stoplist/stoplist.go:114-141 | the aggregator's normal form of the text without control runes |
| `Normalizers.SpaceControls` | internal/stoplist/stoplist.go:125-134 | the runes that are both space and control |
| `Normalizers.AgreeIffNoControlGap` | internal/stoplist/stoplist.go:124-138 | the two normalizers agree on a text if and only if no such rune alone separates two visible runes |
| `Normalizers.StopCanonOfCanon` | internal/stoplist/stoplist.go:114-141 | the stop list's normalizer leaves every key of the aggregator as it is |
| `StopList.UpdatesKeepNormal` | internal/stoplist/stoplist.go:28-68 | updates keep the set one of non-empty normal forms |
| `StopList.AddThenRemove` | internal/stoplist/stoplist.go:28-68 | removing any spelling undoes an applied addition |
| `StopList.ListedIsRemovable` | internal/stoplist/stoplist.go:22-68 | every listed word is found and removed as it is listed, and stays listed through all other updates |
| `StopList.CloneSet` | internal/stoplist/stoplist.go:105-112 | a fresh set with the same words |
| `StopList.NormalFormsAppend` | internal/stoplist/stoplist.go:96-100 | one more word of the list adds its normal form unless that is empty |
| `StopList.BuildSet` | internal/stoplist/stoplist.go:94-103 | a fresh set of the non-empty normal forms |
| `StopList.Manager.constructor` | internal/stoplist/stoplist.go:16-20 | publishes the normal form of every initial word, and nothing else |
| `StopList.Manager.Contains` | internal/stoplist/stoplist.go:22-26 | whether the text's normal form is blocked |
| `StopList.Manager.Add` | internal/stoplist/stoplist.go:28-47 | the set gains the normal form, applied exactly if it was new; only the pointer changes, so published snapshots never do |
| `StopList.Manager.Remove` | internal/stoplist/stoplist.go:49-68 | the set loses the normal form, applied exactly if it was there; published snapshots never change |
| `StopList.Manager.List` | internal/stoplist/stoplist.go:70-79 | the complete enumeration of the set, each word before the next in the order of Go strings |
| `KafkaConsumer.CommitSafety` | internal/kafka/consumer.go:216-245 | every commit call is for the message fetched last, right after its verdict and failed attempts for it, at most the allowed number; a last failed one ends the run |
| `KafkaConsumer.FetchAfterSettled` | internal/kafka/consumer.go:110-155 | before the next fetch the last message was committed or failed to be processed for a non-context reason |
| `KafkaConsumer.MetricsBalance` | internal/kafka/consumer.go:114-153 | received + read errors + commit errors = processed + invalid + failed, and decode errors do not exceed invalid |
| `KafkaConsumer.MetricsAreNumbers` | internal/kafka/consumer.go:114-239 | each metric is the number of actions of its kind in the log; a commit call that failed counts unless the context had ended |
| `KafkaConsumer.CommitMeaning` | internal/kafka/consumer.go:216-245 | a message is committed if and only if an attempt succeeds before the context ends; a non-context error means that all attempts failed |
| `KafkaConsumer.CommitCalls` | internal/kafka/consumer.go:216-245 | the commit calls one by one: a call is repeated exactly if it failed, the context goes on and attempts are left; the error is that of the last call or of the interrupted sleep |
| `KafkaConsumer.DeliveryMeaning` | internal/kafka/consumer.go:132-153 | commit calls follow exactly for malformed, invalid, handled and refused messages; the run goes on after a commit or a failure to process, and stops with the context or the error of the last commit call |
| `KafkaConsumer.RunExitMeaning` | internal/kafka/consumer.go:110-155 | a run goes on exactly if all its rounds do, and otherwise ends as the first one that does not |
| `KafkaConsumer.RunAppend` | internal/kafka/consumer.go:114-114 | one more round takes part in a run exactly if the run has not ended |
| `KafkaConsumer.Consumer.constructor` | internal/kafka/consumer.go:92-107 | three attempts and a pause of half a second unless positive numbers are configured |
| `KafkaConsumer.Consumer.ProcessMessage` | internal/kafka/consumer.go:157-214 | for all answers of decoder and handler: whether the message is committed, which metrics grow, and whose error is returned |
| `KafkaConsumer.Consumer.CommitWithRetry` | internal/kafka/consumer.go:216-245 | the commit calls made and the error returned, for all answers |
| `KafkaConsumer.Consumer.RunOnce` | internal/kafka/consumer.go:115-153 | for all answers: the calls of one round, whether commit calls are among them, the metrics that grow, and how the round ends |
| `KafkaConsumer.Consumer.Fetch` | internal/kafka/consumer.go:115-130 | a message in hand, a sleep before the next fetch, or the end of the run, for all answers |
| `KafkaConsumer.Consumer.Run` | internal/kafka/consumer.go:110-155 | the log of every finite part of a run follows the protocol, its metrics balance, and it ends with the first round that does not go on |
| `Service.ProtectedIffNoControlGap` | cmd/app/main.go:94-97 | exactly the queries that have no gap of space-and-control runes, or that validation refuses, cannot be counted under a blocked key |
| `Service.GapIsRejectedOnlyForLength` | cmd/app/main.go:94-97 | a query with a gap is refused only for its length |
| `Service.GapIsUnprotected` | cmd/app/main.go:94-97 | every query with a gap that is written within the length limit gets past some stop list |
| `Service.TabIsUnprotected` | cmd/app/main.go:94-97 | a tab between two letters gets past some stop list that blocks the two letters with a space between them |
| `Service.EventFate` | cmd/app/main.go:93-124 | the fate of every event, from check, limiter, context, time and words: the status observed, the bucket and key it is counted under, and the admission |
| `Service.DisposedOnce` | cmd/app/main.go:93-124 | each event gets exactly one status unless the handler fails |
| `Service.VerdictOnRound` | internal/kafka/consumer.go:157-214 | which answers of decoder, stop list, limiter and context make a message handled, rejected as malformed or invalid, or failed with which error |
| `Service.WholeRound` | cmd/app/main.go:93-124 | a round without a decoded event leaves the books alone, a decoded one meets its fate with the round's own answers; the consumer makes the calls for them |
| `Service.RunServiceAppend` | cmd/app/main.go:151-163 | a run of the service is its steps in order |
| `Service.BlockedStaysOut` | cmd/app/main.go:94-97 | over every interleaving that does not unblock a key: no event is counted under it, except for queries with a control gap |
| `Service.App.Aggregate` | cmd/app/main.go:115-123 | validation errors are swallowed, only the context's error is returned; the aggregator's step and counter for each verdict |
| `Service.App.HandleSearchEvent` | cmd/app/main.go:93-124 | the books after the event, for every branch, and the handler's error |
| `Service.App.HandleChecked` | cmd/app/main.go:94-123 | the same for the handler after its stop-list check, for a list that may have changed since |
| `Service.App.BeginRound` | cmd/app/main.go:94-94 | the message in hand was checked against the stop list as it was then; without a message, the read error or the end of the run |
| `Service.App.FinishRound` | cmd/app/main.go:95-123 | the books after the event that was checked, or unchanged for a message that was not decoded; the verdict and commit calls for these answers, and how the round ends |
| `Service.App.ConsumeOnce` | cmd/app/main.go:93-124 | both steps of a round: books, log, blocked words and exit are those of the round; messages counted processed = stopped + rate-limited + accepted + expired + invalid events |
| `Service.App.Drive` | cmd/app/main.go:151-163 | every interleaving of consumer steps, rebuilds and stop-list updates takes exactly these steps of the service, and the invariants hold after it |
| `Service.App.Perform` | cmd/app/main.go:151-163 | each operation is its step of the service: a tick rebuilds the cache, a block blocks, an unblock unblocks; the invariants are kept, and the consumer fetches again only when its last message is settled |
| `Service.App.CountedKeysWereChecked` | cmd/app/main.go:94-97 | every counted key was checked against the stop list as it was read for its event, and is not in it unless its query has a control gap |
| `Api.ToStatus` | internal/server/search_trends.go:198-209 | cancellation and deadline have their own status, everything else is internal |
| `Api.ValidateStopWordRequest` | internal/server/search_trends.go:180-196 | refused exactly without a request, without a word, or for more than 256 runes; otherwise the joined words, a key that the stop list does not change |
| `Api.PositiveOnly` | internal/server/search_trends.go:72-82 | keeps the positive items, all of them if all are positive |
| `Api.SearchTrendsHandler.GetTop` | internal/server/search_trends.go:58-89 | the cached Top-N unchanged, since the filter never drops an item, with its time and the window length; from end to end that of the accepted events of the window at the latest rebuild; a limit above the largest int is refused |
| `Api.SearchTrendsHandler.AddStopWord` | internal/server/search_trends.go:91-119 | "already exists" exactly when the returned word was blocked before |
| `Api.SearchTrendsHandler.RemoveStopWord` | internal/server/search_trends.go:121-149 | "not found" exactly when the returned word was not blocked before |

## Left out

- Integer width: counters, seconds and durations are unbounded; a counter would overflow after 2^63 events.
- The algorithms of Go's `sort` package: `Orders.Sort` has their contract, which fixes the result under a strict total order.
- Goroutine scheduling, timers and data races: locked regions are steps, and the rebuild ticker is an arbitrary choice of `Tick` steps.
- The anti-spam limiter's internals: an arbitrary answer, whose only error is the end of the context.
- JSON decoding and timestamp parsing: an arbitrary answer of the decoder. Errors are single values, so an error that wraps several kinds at once is not modelled.
- Kafka reader construction, broker behaviour and rebalancing; no at-least-once claim is made, since a message that failed is passed over.
- Metrics other than the event and message counters; floating-point rounding in `Window.Seconds()`, which is the whole quotient in the model.
- Unicode tables behind `unicode.ToLower`, and invalid UTF-8: queries are sequences of Unicode scalar values.
- gRPC and HTTP servers, health check, configuration files, producer, logging: input and output without a law of their own.
- KafkaConsumer.Consumer.Run: covers finite parts of the unbounded loop; the list of rounds is the reader's answers so far.
- KafkaConsumer.Consumer.constructor: does not model the refusals of a missing reader, decoder, logger or handler (internal/kafka/consumer.go:80-91), because these are never missing in the model.
