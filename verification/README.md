# Leaderboard: a verified model

This project models the hard core of the leaderboard service in Dafny and proves properties of it for
all inputs, all runs and all reachable states. `dafny verify dfyconfig.toml` checks everything.

- **Ranking engine** (`pkg/engine`). Redis is a map from (board key, member) to the stored value plus a
  map of histogram counters. `RedisEngine` is the simple form: one totally ordered set per board.
  `ShardedEngine` is the fast form: hash-routed shards, merged ranges, summed histograms and a
  score-window scatter-gather for neighbours. It carries a ghost single-set state that receives the same
  commands; every method is proved to answer what that state answers.
- **Log and consumers** (`pkg/ingest`, `pkg/api/moderation.go`). A partitioned log is replayed by the
  pull consumer (a class with cursors), by consumer groups with crashes, redelivery and overlapping
  workers (a state machine), and next to the API's synchronous removals (a state machine).
- **Player registry** (`pkg/users`). The in-memory store is the specification; the Redis store is a
  machine in which every snapshot read and every script is a step of its own.
- **Window ids** (`pkg/engine/board.go`, `pkg/window`). Calendar and ISO week arithmetic with the printer
  and the parser (week dates as in section 4.1.4 of ISO 8601:2004).

The strongest results, each over all runs:

- `EndToEnd.ShardedConsumption`: a log consumed in any interleaving by an engine with any number of
  shards ends in step with one set that received the records one by one in append order.
- `EndToEnd.RunApproxBound`: after any commands, the rank estimated from histograms summed over the
  shards is at most the exact rank and short of it by less than the member's bucket.
- `Readback.ReplayHolds`: after any log, each cell of each board is the best, the last or the total of
  exactly the records that count towards it; `Consumers.Rebuild` and `Delivery.BestConverges` end there.
- `Answers.RanksCompare` and `Answers.SliceShows`: ranks are head counts, and every list either engine
  shows is the members with consecutive ranks, nobody left out.
- `Registry.Linearizable`, `Registry.LinearizedAnswers` and `Registry.ContentionIsCharged`: every
  interleaving of registry calls is a sequential history of the in-memory store in which names stay
  unique, and giving up needs 32 distinct interfering changes.
- `Groups.AtLeastOnce`, `Delivery.BestConverges`, `Delivery.IncrementCounts`, `Delivery.ExactlyOnce`:
  what each update policy keeps under crashes, redelivery and overlap.
- `Outcomes.LastExactIff`, `Outcomes.BestExactIff` and `Outcomes.IncrementTally`: exactly when redelivery and
  reordering show, for each policy and with tombstones.
- `Schedules.CarefulExact`: a schedule under which best and last boards end as logged whatever crashes.
- `Repair.CacheAgreesIff`: exactly when the cache and the log agree after moderation.
- `HistogramRace.HistogramExactIff`: the histogram's error after any overlap and any crashes, to the unit.
- `Neighborhood.NeighborsExactIff`: exactly when sharded neighbours are the single-set ones.

## Preconditions

The registry of boards is fixed and covers every board it is asked about, with colon-free app and board
names (`ValidRegistry`). One bad op fails its whole batch, so a replay is compared record by record on
logs whose records are accepted (`RecordOk`). Arithmetic is exact: scores are reals, composites are
integers. Applied markers and idempotency keys do not expire during a run. The shard hash, the partition
hash and the lower-casing of text are arbitrary functions; minted ids, clocks and failures are inputs.

## Where the code and its comments disagree

- The comment at `pkg/engine/sharded_engine.go:349-352` says the fetched union always holds the true
  neighbours; members tied with the target use up the `k + 1` fetch.
  `Neighborhood.NeighborsExactIff` and `Neighborhood.TargetMissedIff` give the exact conditions,
  `Neighborhood.TieHidesTarget` a board on which the target itself is reported missing.
- "best/last exactly-once" (`pkg/ingest/group.go:18-20`) fails for `last` and for a submit followed by a
  tombstone: after a restart new entries are read before older ones are reclaimed
  (`Reordering.LastIsNotExactlyOnce`, `Reordering.RemovedScoreReturns`), and a removed score can come back on a
  best board even after the member submitted again (`Outcomes.RemovedBestReturns`). `Outcomes.LastExactIff`
  and `Outcomes.BestExactIff` give the exact conditions, tombstones included, `Outcomes.IncrementTally` the
  value on increment boards; `Schedules.CarefulExact` is a schedule that makes the claim true.
- The member's next submit does not always repair a wiped score (`pkg/api/moderation.go:16-19`):
  `Repair.CacheAgreesIff`.
- `int64(score)` is out of range from 2^63 on; on amd64 such a score is accepted and stored as zero
  (`Codec.EncodeOverflow`). Times more than a maximal duration after the epoch tie (`Codec.EncodeOrderExact`).
- A repeated segment or window, or "" beside "all", counts an increment more than once
  (`Ingest.RepeatedSegmentCountsTwice`); `FanOut.CountsOnceIff` says exactly when.
- A duplicate answer does not mean the record is in the log (`Dedup.DuplicateWithoutRecord`, exactly when in
  `Dedup.RecordedIff` and `Dedup.StuckIff`), and an append that is stored but reports failure is logged
  twice after the retry (`Dedup.LostAppendDuplicates`, exactly when in `Dedup.LoggedTwiceIff`).
- The dedup key of (app, key) is ambiguous when an app name contains a colon (`Dedup.AppsCollideIff`), and
  scanning for names with a colon selects other boards (`Keys.ScanLeaksOnColon`, `Keys.ScanSelectsIff`). The
  HTTP API cannot produce such names: `pkg/api/server.go:383` validates board names and app ids are minted
  as `app_` and hex digits (`pkg/tenancy/memstore.go:38`). They reach only the library's entry points.
- On writes, board names are checked after the shard suffix is added, so the sharded engine accepts the empty board
  name that the single-set engine refuses (`Keys.ShardKeyValid`); the agreement of the two engines is
  stated for non-empty names.
- Two overlapping writes to one member make the histogram drift for good (`HistogramRace.OverlapDrifts`), and
  so does a crash between a write and its increments (`HistogramRace.CrashDrifts`);
  `HistogramRace.HistogramExactIff` accounts for all of it.

## Model

| member | source | states |
|---|---|---|
| `Keys.GlobLiteral` | pkg/engine/redis_engine.go:427-437 | escaped text, read as a glob pattern, matches itself and no other text |
| `Keys.ScanSelects` | pkg/engine/redis_engine.go:427-469 | for any names, the escaped scan pattern matches a key exactly when "app:board:" starts its hash tag |
| `Keys.ScanSelectsIff` | pkg/engine/redis_engine.go:427-469 | so a valid key is selected if and only if its app and board are the requested ones or the requested names run together to its app, board and segment; names without colons select their own board only |
| `Keys.ScanLeaksOnColon` | pkg/engine/redis_engine.go:443-469 | with a colon in the app name the pattern matches keys of another app and board |
| `Keys.ParseZKey` | pkg/engine/redis_engine.go:455-465 | splitting the key string of a valid board gives back its own normalised key |
| `Keys.SplitHashTag` | pkg/engine/board.go:176-183 | splitting a valid hash tag at colons gives exactly its four components |
| `Keys.StripShardName` | pkg/engine/sharded_engine.go:59-63 | the shard suffix can be removed again |
| `Keys.ShardKeyInjective` | pkg/engine/sharded_engine.go:59-63 | different boards or different shards never share a shard key |
| `Keys.ShardKeyValid` | pkg/engine/sharded_engine.go:59-63 | adding a shard suffix changes whether a key is accepted only for the empty board name |
| `Keys.KeyText` | pkg/engine/board.go:176-185 | the key string is "lb:{app:board:segment:window}:z" with "all" for what is empty; shard i of a board is named board#s<i> |
| `Codec.EncodeFits` | pkg/engine/score.go:21-47 | encode accepts exactly the non-negative whole scores and times that fit their bits, and then yields an integer in [0, 2^53) |
| `Codec.DecodeEncode` | pkg/engine/score.go:21-57 | decode recovers every accepted score below 2^63 |
| `Codec.EncodeOrder` | pkg/engine/score.go:39-46 | composites compare as (better score, then earlier second) in both sort orders, and are equal only for equal pairs |
| `Codec.EncodeOrderExact` | pkg/engine/score.go:27-38 | of two equal scores the earlier ranks first exactly when its distance from the epoch is below the largest duration |
| `Codec.EncodeOverflow` | pkg/engine/score.go:31-31 | an accepted score survives the round trip if and only if it is below 2^63; above, it reads back as zero |
| `Codec.DecodeMonotone` | pkg/engine/score.go:50-57 | decode never reverses the stored order, so ranks by stored value are ranks by score |
| `Codec.Widths` | pkg/engine/score.go:27-38 | the constants: 53, 63 and 64 bits, and the largest duration is the whole seconds of 63 bits of nanoseconds |
| `Codec.Elapsed` | pkg/engine/score.go:35-38 | seconds since the epoch, up to the largest duration |
| `Calendar.IsoWeekRoundTrip` | pkg/window/window.go:68-74 | the Monday computed from the ISO year and week of a day is the Monday of that day, for every day |
| `Calendar.CivilOfDate` | pkg/engine/board.go:212-229 | a date is recovered from its day number |
| `Calendar.MonthLengths` | pkg/window/window.go:46-66 | every month has its length |
| `Calendar.Anchored` | pkg/window/window.go:68-74 | 0001-01-01 is a Monday, and 400 years later every date falls on the same weekday |
| `Windows.WindowRoundTrip` | pkg/engine/board.go:212-229 | for every instant of years 1 to 9999 the printed daily, weekly or monthly id parses back to the end of the period that holds the instant |
| `Windows.PeriodHolds` | pkg/window/window.go:35-74 | an instant lies in its own period, and exactly the instants of a period share it |
| `Windows.SameIdSamePeriod` | pkg/engine/board.go:212-229 | two instants have the same id if and only if they lie in the same day, ISO week or month |
| `Windows.KnownIds` | pkg/engine/board_test.go:10-26 | the three ids of 13 June 2026 |
| `Windows.KnownEnds` | pkg/window/window_test.go:37-39 | the ends of its day, week and month |
| `Windows.UndatedId` | pkg/engine/board.go:224-229 | a custom id is taken as given, any other kind is all-time |
| `Windows.ResolveFinds` | pkg/window/window.go:18-31 | asking for a cadence reads the board a score went to exactly when the score lies in the current period |
| `Windows.ResolveLiteral` | pkg/window/window.go:18-31 | anything but a cadence is read as an id, and "", "all" and "alltime" as the all-time board |
| `Windows.Sweep` | pkg/window/reaper.go:47-83 | a sweep sets a TTL on exactly the scanned keys that expire, and counts them |
| `Windows.ReaperSafe` | pkg/window/reaper.go:31-76 | the key of a dated board expires exactly when its period ended more than the retention ago, so never while it can hold an instant newer than that |
| `Windows.UndatedStays` | pkg/window/reaper.go:31-76 | the all-time board and custom ids not of a dated form never expire |
| `Store.RunOpsConcat` | pkg/engine/redis_engine.go:97-129 | splitting or joining batches changes neither scores nor histogram |
| `Store.RunOpsCell` | pkg/engine/redis_engine.go:56-84 | what a batch leaves in a cell depends only on the ops for that cell, in order |
| `Store.ApplyOpKeepsHist` | pkg/engine/redis_engine.go:136-168 | a submit keeps every histogram counter equal to the number of members in its bucket |
| `Store.ApplyOpKeeps` | pkg/engine/redis_engine.go:56-168 | a submit keeps keys valid, counters exact and composites in range |
| `Store.RunOpsKeeps` | pkg/engine/redis_engine.go:97-168 | so does a whole batch, repeated members included |
| `Store.RemoveOnKeeps` | pkg/engine/redis_engine.go:393-422 | so does removing a member from any set of boards that share the config used |
| `Store.RemoveOnSplit` | pkg/engine/redis_engine.go:472-483 | removing from two disjoint sets of boards one after the other is removing from their union |
| `Store.ResetKeeps` | pkg/engine/redis_engine.go:507-512 | so does clearing boards |
| `Policies.BestFold` | pkg/engine/redis_engine.go:66-82 | a best board holds the best value ever submitted |
| `Policies.BestOrderFree` | pkg/engine/redis_engine.go:66-82 | there, submits with the same values give the same cell in any order and with any repetition |
| `Policies.IncrementFold` | pkg/engine/redis_engine.go:66-82 | an increment board holds the sum of the accepted scores |
| `Policies.LastFold` | pkg/engine/redis_engine.go:66-82 | a last board holds the last accepted value |
| `Policies.FirstToBest` | pkg/engine/score.go:39-46 | with firstToReach, for every order and repetition, the cell decodes to the best score and stands for the earliest time it was reached |
| `Policies.FirstToReachOrder` | pkg/engine/score.go:39-46 | two encoded values compare by score, then time, then member id |
| `Policies.FirstToReachListing` | pkg/engine/score.go:39-46 | after any batches a best board with firstToReach lists its members by best score, then the time it was first reached, then member id |
| `Ranking.ZRankIsPosition` | pkg/engine/redis_engine.go:171-208 | a rank is the position of the member in the full listing |
| `Ranking.ApproxRankFromCounts` | pkg/engine/histogram.go:115-127 | the estimate is one plus the counters of all better buckets |
| `Ranking.CountsFrom` | pkg/engine/histogram.go:139-150 | the dense slice holds each counter, zero where the hash has none |
| `Ranking.BucketIndexMonotone` | pkg/engine/histogram.go:53-66 | a larger score never falls into a smaller bucket |
| `Ranking.BucketMeans` | pkg/engine/histogram.go:53-66 | a score is in bucket i of n if and only if it is at least min + i * width / n, or i is the first, and below min + (i + 1) * width / n, or i is the last |
| `Ranking.SumIsCensus` | pkg/engine/histogram.go:84-110 | a range of exact counters adds up to the number of members in those buckets |
| `Ranking.ApproxBound` | pkg/engine/redis_engine.go:216-243 | 0 <= exact rank - approximate rank < population of the bucket, in both sort orders and both tie-breaks |
| `Answers.RankIsPosition` | pkg/engine/redis_engine.go:171-208 | one more than the number of members that come before, by value and then by id, is the position in the full listing |
| `Answers.RanksCompare` | pkg/engine/sharded_engine.go:141-155 | one member has the smaller rank if and only if it comes before the other; different members have different ranks, from 1 to the number of members |
| `Answers.RankTaken` | pkg/engine/redis_engine.go:171-208 | and no rank is skipped |
| `Answers.SliceShows` | pkg/engine/redis_engine.go:246-277 | a window of the listing shows exactly the members whose ranks are the positions of the window, in order, with their own scores |
| `Answers.ShowsOnce` | pkg/engine/redis_engine.go:246-277 | there is only one such list |
| `Answers.CountsEstimate` | pkg/engine/redis_engine.go:216-243 | with exact histograms the entry computed from them is an estimate in the sense of GetApproxRank |
| `Ordering.StrLessIff` | pkg/engine/sharded_engine.go:151-154 | strings compare by their first difference, a proper prefix first |
| `Engine.RedisEngine.SubmitBatch` | pkg/engine/redis_engine.go:97-129 | one bad op refuses the batch with nothing changed; otherwise the state is that of the ops one by one, each result shows the score its member then has, and says updated exactly when the op added to it or changed it |
| `Engine.RedisEngine.FirstBad` | pkg/engine/redis_engine.go:101-113 | the error of the first op that does not validate or encode, if any |
| `Engine.RedisEngine.Pipeline` | pkg/engine/redis_engine.go:56-84 | the read-write-read pipeline leaves the scores of the ops one by one and returns each value before and after |
| `Engine.RedisEngine.MaintainHistograms` | pkg/engine/redis_engine.go:136-168 | the moves queued for a batch telescope to the counters of the ops one by one |
| `Engine.RedisEngine.Remove` | pkg/engine/redis_engine.go:393-422 | removes the one cell and its unit in the histogram, or refuses the key |
| `Engine.RedisEngine.ScanBoardKeys` | pkg/engine/redis_engine.go:443-469 | collects exactly the parsed keys that match the pattern |
| `Engine.RedisEngine.RemoveFromAll` | pkg/engine/redis_engine.go:472-483 | the loop of removals over the scanned keys removes the member from all of them and changes nothing else |
| `Engine.RedisEngine.RemoveFromSome` | pkg/engine/redis_engine.go:472-483 | with an engine that fails on the way: the member is off exactly the boards handled before, and the call fails exactly when the failure comes before the last board |
| `Engine.RedisEngine.Segments` | pkg/engine/redis_engine.go:489-504 | the sorted list, without repetition, of the segments with a live board; for names without colons, exactly the segments in which the app and board have a score |
| `Engine.RedisEngine.Reset` | pkg/engine/redis_engine.go:507-512 | no score and no counter of the board is left, every other score and counter is as before; an invalid key changes nothing |
| `Engine.RedisEngine.Count` | pkg/engine/redis_engine.go:385-390 | the number of members on the board, which is the length of its full listing |
| `Engine.RedisEngine.GetRank` | pkg/engine/redis_engine.go:171-208 | the member with its own decoded score, exact, and a rank that is one more than the number of members before it; or the error that applies |
| `Engine.RedisEngine.GetApproxRank` | pkg/engine/redis_engine.go:216-243 | the member with its own decoded score, marked as not exact; while the histograms are exact, a rank at most the exact one and short of it by less than the number of members in the same bucket; or the error that applies |
| `Engine.RedisEngine.RangeByRank` | pkg/engine/redis_engine.go:246-277 | the ranked slice of the full listing |
| `Engine.RedisEngine.TopN` | pkg/engine/redis_engine.go:280-285 | min(n, Count) exact entries: entry i is the member whose rank is i + 1, and nobody with one of those ranks is left out; nothing for n <= 0 |
| `Engine.RedisEngine.Page` | pkg/engine/redis_engine.go:288-293 | the same for ranks offset + 1 up to offset + limit; nothing for limits <= 0 or negative offsets |
| `Engine.RedisEngine.Neighbors` | pkg/engine/redis_engine.go:296-323 | the same for the ranks at most k away from the rank of the member, clipped at both ends |
| `Engine.RedisEngine.FriendRank` | pkg/engine/redis_engine.go:328-382 | each member asked for who is on the board, as often as asked for, with its decoded score, in the order of their ranks on the board, numbered from one |
| `Engine.FriendsAgreeWithBoard` | pkg/engine/redis_engine.go:328-382 | for distinct members that list is the subsequence of the board listing they form |
| `Engine.GroupShows` | pkg/engine/redis_engine.go:328-382 | with repeated members too, sorting what was found shows the group in board order |
| `Engine.TopShows` | pkg/engine/redis_engine.go:280-285 | the specification of TopN shows ranks 1 to n |
| `Engine.PageShows` | pkg/engine/redis_engine.go:288-293 | that of Page ranks offset + 1 to offset + limit |
| `Engine.NearShows` | pkg/engine/redis_engine.go:296-323 | that of Neighbors the ranks within k of the member |
| `Engine.ApproxAnswer` | pkg/engine/redis_engine.go:216-243 | that of GetApproxRank an estimate |
| `Engine.ResultReports` | pkg/engine/redis_engine.go:66-84 | what one op answers is the score its member then has, and updated if and only if it was an increment or the stored value changed |
| `Engine.SegmentsMean` | pkg/engine/redis_engine.go:489-504 | for names without colons, the segments listed are those in which the board has a score |
| `Admission.KeyAccepted` | pkg/engine/board.go:153-173 | a key is accepted if and only if app and board are non-empty, and no component holds a colon, a brace or white space |
| `Admission.SameBoard` | pkg/engine/board.go:145-183 | two keys are the same board if and only if they differ in nothing but "" for "all" |
| `Admission.ConfigAccepted` | pkg/engine/board.go:106-134 | a config is accepted if and only if its names are known, increment is not combined with firstToReach, and the bits and buckets fit; unset fields always do |
| `Admission.UnsetFields` | pkg/engine/board.go:80-100 | unset fields become descending, best, lexical, 20 bits, 1 January 2020 and 1024 buckets; set fields stay; filling in twice changes nothing |
| `Admission.OpAccepted` | pkg/engine/redis_engine.go:101-113 | a submit is refused for its key first, then its config, then its score; an accepted one stores the score itself unless the board is firstToReach |
| `Admission.BoardAccepted` | pkg/engine/board.go:106-173 | a read is refused for its key first, then for its config |
| `Admission.FirstErrorIs` | pkg/engine/redis_engine.go:101-113 | the error of a batch is that of its first bad op |
| `Admission.RecordAccepted` | pkg/ingest/consumer.go:25-59 | a record fails the batch of the consumer if and only if its board is registered, it is no tombstone, and the config is unsound, a name it is fanned out under is not plain, or the score cannot be encoded |
| `Sharding.CheckRouted` | pkg/engine/sharded_engine.go:71-78 | routing an op changes neither its validity nor its encoding, and moves its cell to the shard of its member |
| `Sharding.RelRunOps` | pkg/engine/sharded_engine.go:71-78 | a routed batch keeps the shards a placement of the single set |
| `Sharding.ScanRouted` | pkg/engine/sharded_engine.go:84-88 | the scan of one shard selects exactly the cells of the board whose members hash to it |
| `Sharding.ExecRefines` | pkg/engine/sharded_engine.go:67-120 | every batch, removal and reset keeps the shards a placement of the single set with exact histograms on both sides |
| `Sharding.RunRefines` | pkg/engine/sharded_engine.go:67-120 | so does every run |
| `Sharding.ShardZSet` | pkg/engine/sharded_engine.go:59-63 | one shard of a board holds exactly the entries whose members hash to it |
| `Sharding.MergeTop` | pkg/engine/sharded_engine.go:181-215 | the first n of the board are the first n of the union of the first n of each shard, ties included |
| `Neighborhood.WindowIsAround` | pkg/engine/redis_engine.go:296-323 | the clipped window of the listing is the k nearest entries on either side |
| `Neighborhood.FetchedIffReached` | pkg/engine/sharded_engine.go:349-378 | an entry is fetched exactly when at most k entries of its shard lie between the score of the target and itself |
| `Neighborhood.NeighborsExactIff` | pkg/engine/sharded_engine.go:330-400 | the sharded window is the single-set window if and only if every true neighbour is fetched in that sense |
| `Neighborhood.NeighborsExactUntied` | pkg/engine/sharded_engine.go:330-400 | with no tie on the stored score of the target it always is, for every k and shard count |
| `Neighborhood.TargetMissedIff` | pkg/engine/sharded_engine.go:379-391 | the target is reported missing if and only if more than k members of its shard are tied with it on either side |
| `Neighborhood.TieHidesTarget` | pkg/engine/sharded_engine.go:349-391 | three tied members on one shard: the middle one is not found |
| `ShardedEngines.ShardedEngine.constructor` | pkg/engine/sharded_engine.go:37-42 | starts in step with the empty single set, with at least one shard |
| `ShardedEngines.ShardedEngine.RouteBatch` | pkg/engine/sharded_engine.go:71-78 | each op on the shard of its member, in order |
| `ShardedEngines.ShardedEngine.SubmitBatch` | pkg/engine/sharded_engine.go:71-78 | same effect on the ghost single set, same errors and same results as the single-set engine, stated outright as there |
| `ShardedEngines.ShardedEngine.Remove` | pkg/engine/sharded_engine.go:80-82 | same effect and error as the single-set engine |
| `ShardedEngines.ShardedEngine.RemoveFromAll` | pkg/engine/sharded_engine.go:84-88 | same effect as the single-set engine, scanning one shard only |
| `ShardedEngines.ShardedEngine.Reset` | pkg/engine/sharded_engine.go:113-120 | the loop over the shards has the effect and error of the single-set reset |
| `ShardedEngines.ShardedEngine.Count` | pkg/engine/sharded_engine.go:122-132 | the shard counts add up to the number of members of the board on the single set |
| `ShardedEngines.ShardedEngine.Segments` | pkg/engine/sharded_engine.go:92-111 | the union over the shards, sorted, is the single-set answer: exactly the segments in which the board has a score |
| `ShardedEngines.ShardedEngine.GatherTop` | pkg/engine/sharded_engine.go:158-195 | collects the first stop + 1 entries of every shard |
| `ShardedEngines.ShardedEngine.RangeMerged` | pkg/engine/sharded_engine.go:181-215 | the merged slice is the single-set ranked slice |
| `ShardedEngines.ShardedEngine.TopN` | pkg/engine/sharded_engine.go:217-222 | the single-set answer: min(n, Count) exact entries, the members of ranks 1 to n in order |
| `ShardedEngines.ShardedEngine.Page` | pkg/engine/sharded_engine.go:224-229 | the single-set answer: the members of ranks offset + 1 to offset + limit in order |
| `ShardedEngines.ShardedEngine.SumCounts` | pkg/engine/sharded_engine.go:257-280 | the counters summed over the shards are the single-set counters |
| `ShardedEngines.ShardedEngine.GetApproxRank` | pkg/engine/sharded_engine.go:241-285 | the single-set answer: the member with its own score, and a rank at most the exact one and short of it by less than its bucket holds; or the error that applies |
| `ShardedEngines.ShardedEngine.FriendRank` | pkg/engine/sharded_engine.go:289-326 | the single-set answer: each member asked for who is on the board, in board order, numbered from one |
| `ShardedEngines.ShardedEngine.GatherAround` | pkg/engine/sharded_engine.go:349-378 | the candidates are exactly the k + 1 entries fetched in each direction from each shard, each once |
| `ShardedEngines.ShardedEngine.Neighbors` | pkg/engine/sharded_engine.go:330-420 | shows the k nearest candidates on either side, or reports the member missing when it is not among them; ranks are consecutive and not exact, and that of the target is its estimate, or its place among the candidates on a board without estimates |
| `ShardedEngines.ShardedEngine.Surroundings` | pkg/engine/sharded_engine.go:393-420 | the window around the target, numbered from its estimate |
| `ShardedEngines.NeighborsAgree` | pkg/engine/sharded_engine.go:330-400 | that answer is the single-set one if and only if every true neighbour is fetched; without ties always |
| `ShardedEngines.SingleNeighbors` | pkg/engine/redis_engine.go:296-323 | the single-set answer shows the k nearest entries on either side |
| `ShardedEngines.ShardSumIsCount` | pkg/engine/sharded_engine.go:257-280 | a bucket summed over the shards is the bucket of the single set |
| `Ingest.DerivePhysicalBoards` | pkg/engine/board.go:252-274 | the nested loops give one key per window and segment, defaults included |
| `Ingest.DeriveMember` | pkg/engine/board.go:252-274 | the fan-out stays on its own board and has windows times segments keys |
| `Ingest.OpsOfMember` | pkg/ingest/consumer.go:30-46 | every write of a record goes to its own board and member, with its own score, time and config |
| `Ingest.TombstoneClears` | pkg/ingest/consumer.go:66-75 | a tombstone clears every cell of its app, board and member |
| `Ingest.ReplayCell` | pkg/ingest/consumer.go:54-81 | what a replay leaves in a cell is the fold of the records over that cell |
| `Ingest.ForeignRecord` | pkg/ingest/consumer.go:54-81 | a record never changes a cell of another (app, board, member) |
| `Ingest.CellReplaySelect` | pkg/ingest/consumer.go:54-81 | so only the records of its owner matter to a cell |
| `Ingest.ReplayKeeps` | pkg/ingest/consumer.go:54-81 | a replay keeps keys valid and histograms exact |
| `Ingest.Confluence` | pkg/ingest/log.go:57-68 | every interleaving of the partitions gives the scores and histograms of the append order, for every policy and with tombstones |
| `Ingest.RepeatedSegmentCountsTwice` | pkg/engine/board.go:257-272 | an input: two segments that name the same key make an increment count twice |
| `FanOut.CountsCopies` | pkg/engine/board.go:252-274 | on an increment board every accepted record adds to every cell its score times the number of window-segment pairs that name the board of the cell |
| `FanOut.CopiesFor` | pkg/engine/board.go:252-274 | that number is how often the window id occurs times how often the segment name does |
| `FanOut.CountsOnceIff` | pkg/engine/board.go:252-274 | a record counts once on every board it reaches if and only if its window ids are pairwise different and its segment names are, defaults filled in, or its score is zero |
| `Consumers.Log.constructor` | pkg/ingest/log.go:57-68 | an empty log with at least one partition, routed by a hash of (app, board, member) |
| `Consumers.Log.Append` | pkg/ingest/memlog.go:23-31 | appends to the partition of its owner with the next id of that partition, and to the global order |
| `Consumers.Log.ReadPartition` | pkg/ingest/memlog.go:33-57 | returns exactly the records after the cursor up to the batch size, or fails for a bad partition or cursor |
| `Consumers.CursorOfId` | pkg/ingest/memlog.go:23-57 | the id of a record, used as a cursor, points just past it |
| `Consumers.PendingIsReplay` | pkg/ingest/consumer.go:30-47 | consecutive submits applied as one batch leave what they leave one by one, and the batch is good exactly when every record is; from an empty engine every cell then holds the best, the last or the total of the records that count towards it |
| `Consumers.ApplyRecords` | pkg/ingest/consumer.go:54-81 | the records before the error, or all of them, are applied as if handled one by one, so from an empty engine every cell holds the best, the last or the total of those that count towards it; it fails exactly when some record is bad, and then stops right after a tombstone |
| `Consumers.Flush` | pkg/ingest/consumer.go:56-64 | sends the pending ops as one batch |
| `Consumers.Consumer.constructor` | pkg/ingest/consumer.go:25-27 | starts with nothing applied |
| `Consumers.Consumer.Fetch` | pkg/ingest/consumer.go:88-92 | the next batch beyond the cursor of the partition |
| `Consumers.Consumer.StepPartition` | pkg/ingest/consumer.go:88-105 | applies the next batch of one partition, moves its cursor past it and no other; on an error no cursor moves and a prefix of the batch is applied |
| `Consumers.Consumer.MoveCursor` | pkg/ingest/consumer.go:102-104 | moving one cursor past an applied batch keeps every partition applied up to its cursor |
| `Consumers.Consumer.Step` | pkg/ingest/consumer.go:85-108 | applies one batch per partition; the backlog shrinks by the number reported, and zero means nothing is left |
| `Consumers.Consumer.Drain` | pkg/ingest/consumer.go:111-121 | terminates with every record applied once, in an interleaving of the log, and so with the scores and histograms of the append order |
| `Consumers.Rebuild` | pkg/ingest/consumer.go:150-152 | an empty engine ends in the replay of the whole log: every cell of every registered board holds the best, the last or the total of the logged scores that count towards it, and histograms are exact |
| `Readback.AddressesIff` | pkg/engine/board.go:252-274 | the fan-out writes to a board exactly when one of the windows of the logical board (all-time if none) has its id and one of the segments of the record ("all" if none) is its own |
| `Readback.RecordCell` | pkg/ingest/consumer.go:25-81 | what one record does to one cell, in terms of its own fields: a tombstone of the owner clears it, an accepted submit that is fanned out to it stores by policy, anything else leaves it |
| `Readback.ReplayHolds` | pkg/ingest/consumer.go:54-81 | after any log a cell holds, by policy, the best or the last encoded score, or the total, of exactly the accepted submits of its owner that are fanned out to it and that no tombstone follows |
| `Readback.OneRecordReadsBack` | pkg/ingest/consumer.go:30-46 | if one record counts, the cell decodes to the score of that record |
| `Consumers.OwnedPartitions` | pkg/ingest/log.go:73-88 | lists in order exactly the partitions of the worker |
| `Consumers.OneOwner` | pkg/ingest/log.go:73-88 | every partition has exactly one owner |
| `EndToEnd.CommandIsRecord` | pkg/ingest/consumer.go:54-81 | handling an accepted record is one engine command |
| `EndToEnd.BatchesJoin` | pkg/engine/redis_engine.go:97-168 | joining two accepted batches changes the result of neither engine |
| `EndToEnd.ShardedConsumption` | pkg/ingest/consumer.go:54-121 | any interleaving of a log consumed over any number of shards leaves a placement of the append-order replay on a single set, histograms exact |
| `EndToEnd.RunApproxBound` | pkg/engine/sharded_engine.go:241-285 | after every run, the estimate from counters summed over the shards is at most the exact rank and short of it by less than the bucket of the member |
| `Groups.InvStep` | pkg/ingest/group.go:113-251 | every read, claim, check, removal of one board, completed action, mark, ack and crash keeps the invariant of the machine, whose engine state is the scores |
| `Groups.RunInv` | pkg/ingest/group.go:113-298 | so it holds in every reachable state |
| `Groups.AtLeastOnce` | pkg/ingest/group.go:113-251 | in every run each action of an acknowledged entry was completed, nothing outside the log was applied, and the scores are the fold of what was applied, removals cut short between boards included |
| `Delivery.ReplayIsTicks` | pkg/ingest/consumer.go:54-81 | the replay of a log is its actions in append order |
| `Delivery.TraceCoversLog` | pkg/ingest/group.go:113-251 | once all is acknowledged, the actions completed are those of the log, and all else applied is single boards of its removals |
| `Delivery.BestConverges` | pkg/ingest/group.go:18-20 | on best boards, for members without tombstones, once all is acknowledged each score is the best encoded score of the logged records that count towards it, in every run |
| `Delivery.IncrementCounts` | pkg/ingest/group.go:18-25 | on increment boards, for members without tombstones, each score is the sum of score times apply count, in every run; Outcomes.IncrementTally has tombstones |
| `Delivery.ExactlyOnce` | pkg/ingest/group.go:113-171 | when no check-apply-mark section is cut short or overlapped, every action is completed exactly once |
| `Delivery.IncrementExact` | pkg/ingest/group.go:113-171 | and then an increment board holds the total of the logged scores that count towards it, for members without tombstones; Schedules.CarefulExact has tombstones |
| `Outcomes.LastExactIff` | pkg/ingest/group.go:18-20 | last boards, tombstones included: in every run, once all is acknowledged, a cell is what the log gives if and only if no action that sets it otherwise is applied after all those that set it to the outcome of the last one in the log |
| `Outcomes.LastOutcomeIff` | pkg/ingest/group.go:18-20 | the same for any sequence of actions |
| `Outcomes.PresentIff` | pkg/ingest/consumer.go:54-81 | a cell is present after a sequence of actions if and only if one of them submits to it and none after that removes it |
| `Outcomes.PresentInRunIff` | pkg/api/moderation.go:18-21 | in every run and on every board, cache and log alike: a cell is present if and only if a submit to it is applied after the last removal applied to it |
| `Outcomes.BestSurvivor` | pkg/engine/redis_engine.go:66-82 | on a best board a cell is the best of the values submitted after the last removal |
| `Outcomes.SurvivingMember` | pkg/engine/redis_engine.go:66-82 | which are the values of the submits that no later action removes |
| `Outcomes.BestExactIff` | pkg/ingest/group.go:18-20 | best boards, tombstones included, in every run: the cache is what the log gives if and only if nothing that survives in the cache beats the value of the log and something attains it |
| `Outcomes.RemovedBestReturns` | pkg/api/moderation.go:18-21 | an input: a removed score is back on a best board although the member submitted again |
| `Outcomes.TailFold` | pkg/ingest/consumer.go:54-81 | only the submits after the last removal of a cell count |
| `Outcomes.IncrementTally` | pkg/ingest/group.go:18-25 | increment boards, tombstones included, in every run: cache and log are each the sum of score times number of applications after the last removal |
| `Reordering.AfterTombstone` | pkg/ingest/group.go:113-171 | a cell holds exactly the fold of what was applied after the last tombstone, and is absent if and only if none of that submits to it |
| `Reordering.CrashFirstRun` | pkg/ingest/group.go:255-298 | a run with one crash that acknowledges two entries and applies the second first |
| `Reordering.LastIsNotExactlyOnce` | pkg/ingest/group.go:268-287 | after it a last board keeps the older score |
| `Reordering.RemovedScoreReturns` | pkg/ingest/group.go:268-287 | with a tombstone second, it brings the removed score back for good |
| `Absorption.AbsorbOne` | pkg/engine/redis_engine.go:66-82 | on best and last boards an action applied before a pass that holds it makes no difference to the result |
| `Absorption.AbsorbEnd` | pkg/engine/redis_engine.go:66-82 | there, a value a pass leaves as it is, the end of the pass leaves as it is |
| `Placement.PlacesStep` | pkg/ingest/group.go:175-251 | with one reader per partition that claims all pending entries before it reads new ones, every step leaves each worker with all that is pending of one of its partitions, or nothing |
| `Schedules.TargetStep` | pkg/ingest/group.go:113-251 | and every step, crashes included, leaves each cell of a best or last board one full pass away from what the delivered log gives |
| `Schedules.CarefulExact` | pkg/ingest/group.go:255-298 | so under that schedule, whatever crashes and however often entries are redelivered, once all is acknowledged every best and last board is what the log gives, tombstones included; increment boards too if no crash cuts a section short |
| `Schedules.OrderlyIsCareful` | pkg/ingest/log.go:73-88 | static ownership without crashes and reclaims is such a schedule |
| `Schedules.InOrderExact` | pkg/ingest/group.go:175-212 | so it ends as the log says on every board, for every policy and with tombstones |
| `Progress.OrderlyConsumes` | pkg/ingest/group.go:113-212 | for every log there is a run under that schedule that delivers and acknowledges all of it |
| `Progress.RemovesInParts` | pkg/ingest/group.go:113-171 | a worker at a removal can take the boards of its member one by one, and any worker can crash at any moment, losing nothing but its own list |
| `Moderation.CellStep` | pkg/api/moderation.go:24-73 | appends, in-order consumption and synchronous removals, board by board and stopping anywhere, keep every cell the fold of its records since its last wipe |
| `Moderation.CachedIsFold` | pkg/api/moderation.go:16-22 | so in every run a cached score is the fold of the records between the position at the last wipe and the current one |
| `Moderation.NeverResurrected` | pkg/api/moderation.go:18-21 | past a tombstone no earlier submit contributes |
| `Progress.CatchesUp` | pkg/ingest/consumer.go:85-121 | from every reachable state the consumer can catch up with any partition |
| `Progress.WipesAnytime` | pkg/api/moderation.go:67-72 | a synchronous removal can take any cell of a registered board at any moment, that cell and no other |
| `Moderation.BestRepairedIff` | pkg/api/moderation.go:16-19 | on a best board later submits repair a wipe if and only if no wiped value beats them |
| `Moderation.IncrementRepairedIff` | pkg/api/moderation.go:16-19 | on an increment board, if and only if the wiped scores add up to zero |
| `Moderation.LastRepaired` | pkg/api/moderation.go:16-19 | on a last board, always |
| `Repair.CacheAndLog` | pkg/api/moderation.go:16-22 | once caught up, the cache holds the submits since the last wipe or tombstone, the log those since the last tombstone |
| `Repair.HarmlessIff` | pkg/api/moderation.go:16-19 | for all three policies: the exact condition under which wiped submits make no difference |
| `Repair.CacheAgreesIff` | pkg/api/moderation.go:16-22 | in every run, once caught up, cache and log agree on a member if and only if a tombstone followed the wipe or the wiped submits make no difference |
| `Handlers.AppendTombstones` | pkg/api/moderation.go:59-66 | one tombstone per board, up to the first append that fails; replaying the longer log from any state leaves the member off every registered board it got to, and every other score as the shorter log leaves it |
| `Handlers.ErasedNext` | pkg/ingest/ingestor.go:61-70 | one more tombstone takes the member off one more board, for every replay |
| `Handlers.RemovedNext` | pkg/api/moderation.go:68-72 | one more removal, complete or cut short, extends what the loop has achieved |
| `Handlers.RemoveEverywhere` | pkg/api/moderation.go:67-72 | the loop takes the member off every board whose removal went through, changes no board not listed, goes on after failures and keeps every histogram exact |
| `Handlers.HandleRemoveScore` | pkg/api/moderation.go:24-42 | one tombstone, then the removal: the log then replays, from any state, to the same scores without those of this member on this board; a removal that fails has taken the member off some of its boards, and the reply says queued exactly then |
| `Handlers.HandleDeleteUser` | pkg/api/moderation.go:49-83 | one tombstone per board up to the first failure, each of which takes the member off its board in every replay of the log and changes nothing else there; then the removals, then the registration; each failure leaves exactly what was done before it, and the reply says queued exactly when some removal failed |
| `Players.Text.NicknameStable` | pkg/users/store.go:79-90 | normalising a display name again changes nothing, so its key is that of the lower-cased name itself |
| `Players.Text.TrimParts` | pkg/users/store.go:79-80 | trimming takes off white space only, and all of it at both ends |
| `Players.NickParts` | pkg/users/store.go:79-109 | a nickname of 1 to 32 printable characters after trimming is accepted, with the lower-cased name as key; a member id of 1 to 64 that does not start with plr_ |
| `Players.NamesUnique` | pkg/users/memstore.go:23-102 | no two players have display names that are equal in lower case |
| `Players.AnswerMeans` | pkg/users/memstore.go:23-129 | each operation in terms of players and names alone: a nickname is taken if and only if another player goes by it in lower case; which error comes first; and who is registered under what name after it |
| `Players.AlwaysUnique` | pkg/users/memstore.go:23-129 | so names stay unique after any operations |
| `Players.MemStepKeeps` | pkg/users/memstore.go:23-129 | every operation keeps players, display names and nickname claims in one-to-one correspondence |
| `Players.ClaimsCount` | pkg/users/memstore.go:131-135 | so there are as many claims as players |
| `Players.MemStore.Create` | pkg/users/memstore.go:23-53 | nickname taken if and only if another player has the same name in lower case; member taken if and only if the id is in use; else the trimmed name is registered and nothing else changes; errors in the order of the code |
| `Players.MemStore.Rename` | pkg/users/memstore.go:79-102 | nickname taken if and only if another player has the same name in lower case, so a change of letter case is accepted; not found if and only if the player is unknown; else only this name changes |
| `Players.MemStore.Delete` | pkg/users/memstore.go:116-129 | the player and its claim are gone and nothing else has changed; deleting an unknown player is no error |
| `Players.MemStore.Count` | pkg/users/memstore.go:131-135 | the number of players, which is the number of claims |
| `Players.Redis.RunCreate` | pkg/users/redisstore.go:33-39 | the script, command by command, does what its function says on all three structures |
| `Players.Redis.RunRename` | pkg/users/redisstore.go:48-57 | the same for the rename script, stale snapshots included |
| `Players.Redis.RunDelete` | pkg/users/redisstore.go:65-72 | the same for the delete script, stale snapshots included |
| `Registry.CreateMatches` | pkg/users/redisstore.go:74-106 | a create script does what the in-memory create does at that moment, and answers the same |
| `Registry.RenameMatches` | pkg/users/redisstore.go:138-179 | so does a rename script whose snapshot is not stale |
| `Registry.DeleteMatches` | pkg/users/redisstore.go:198-226 | so does a delete script whose snapshot is not stale |
| `Registry.RunInv` | pkg/users/redisstore.go:74-226 | the invariant of the machine holds in every reachable state |
| `Registry.Linearizable` | pkg/users/redisstore.go:74-226 | every interleaving is the in-memory store running the answered calls one at a time, with the same state and answers, and a call answered before another is invoked comes first |
| `Registry.LinearizedAnswers` | pkg/users/redisstore.go:74-226 | in every reachable state no two records have the same name in lower case, and every call that took effect was answered as it must for the players of that moment: nickname taken if and only if another of them has the name |
| `Registry.CallsEnd` | pkg/users/redisstore.go:138-226 | no call is ever stuck, and none takes more than 64 steps of its own, whatever the others do |
| `Registry.ScriptTakesEffect` | pkg/users/redisstore.go:138-226 | a script takes effect unless the claim of the player has moved since the call read it |
| `Registry.CountIsExact` | pkg/users/redisstore.go:231-233 | in every reachable state records, display names and claims correspond one to one, so Count is the number of players |
| `Registry.ContentionIsCharged` | pkg/users/redisstore.go:138-226 | a contention error implies 32 distinct changes of the same player, one between the read and the script of each attempt |
| `Dedup.Ingestor.Submit` | pkg/ingest/ingestor.go:29-53 | unknown boards and duplicates change nothing; a failed append leaves no reservation; otherwise the record is logged and its key reserved |
| `Progress.LoneCaller` | pkg/ingest/ingestor.go:29-53 | in the concurrent machine, from any state, a caller that is not interrupted gets the same answers with the same effects |
| `Progress.CallerCrashes` | pkg/ingest/ingestor.go:29-53 | there, a caller can crash at any moment before its answer and leaves its key reserved exactly when it holds it; an append can be stored and still look failed |
| `Dedup.InvStep` | pkg/ingest/ingestor.go:29-53 | every step, lost appends included, keeps each reservation with exactly one claimant and each record but the last of its key from a lost append |
| `Dedup.LoggedTwiceIff` | pkg/ingest/ingestor.go:29-53 | in every interleaving with failing and lost appends, rollbacks and crashes: a key has two records if and only if a lost append of that key was followed by another append of it; accepted goes only to callers whose record is in the log |
| `Dedup.AtMostOneRecord` | pkg/ingest/ingestor.go:29-53 | so a key without a lost append has at most one record, whatever happens to other keys |
| `Dedup.RecordedIff` | pkg/ingest/ingestor.go:37-51 | a key has a record if and only if some caller was accepted with it or an append of it was lost: what a duplicate answer is worth |
| `Dedup.StuckIff` | pkg/ingest/ingestor.go:46-51 | with nobody holding a key and no lost append of it, it is reserved without a record if and only if a caller crashed while holding it |
| `Dedup.DuplicateWithoutRecord` | pkg/ingest/ingestor.go:37-51 | a run that answers duplicate although the log stays empty |
| `Dedup.LostAppendDuplicates` | pkg/ingest/ingestor.go:46-51 | a run that logs a record twice after an append that was stored but reported failure |
| `Dedup.DedupKeysEqualIff` | pkg/ingest/ingestor.go:38-38 | exactly when two (app, key) pairs share a dedup key |
| `Dedup.AppsCollideIff` | pkg/ingest/ingestor.go:38-38 | two different apps can share one if and only if one of them is the other followed by a colon and more; apps without colons never |
| `HistogramRace.BalanceStep` | pkg/engine/redis_engine.go:56-168 | every step of concurrent submits, increments and removals changes the balance of counters and board by exactly its drift |
| `HistogramRace.HistogramExactIff` | pkg/engine/redis_engine.go:56-168 | in every run, with any overlap and crashes, histogram plus queued increments plus open groups is the bucket population plus the drift; at rest a counter is exact if and only if the drift is zero |
| `HistogramRace.HistogramPlusQueue` | pkg/engine/redis_engine.go:136-168 | if no other value is stored inside a group on the member and no writer is lost between its write and its increments, there is no drift in any reachable state |
| `HistogramRace.OverlapDrifts` | pkg/engine/redis_engine.go:56-168 | two overlapping first submits count their member twice |
| `HistogramRace.CrashDrifts` | pkg/engine/redis_engine.go:115-168 | a crash between write and increments leaves the member uncounted for good, because the retry finds its score unchanged |
| `HistogramRace.RemovalsOnce` | pkg/engine/redis_engine.go:403-421 | two overlapping removals decrement once |
| `Progress.LoneSubmit` | pkg/engine/redis_engine.go:56-84 | in that machine, a submit that is not interrupted stores its value and queues one unit out of the old bucket and one into the new, or only the latter for a new member |
| `Progress.LoneIncrement` | pkg/engine/redis_engine.go:66-71 | so does an increment |
| `Progress.LoneRemoval` | pkg/engine/redis_engine.go:393-422 | and a removal takes the member off and queues one unit out of its bucket |
| `Progress.AnyIncrement` | pkg/engine/redis_engine.go:136-168 | queued increments can be sent or lost in any order |

## Left out

- HTTP routing, authorisation, cookies, metrics, SDKs and the web dashboard: plumbing and user interface.
- pkg/trust, pkg/accounts, pkg/email, pkg/tenancy, pkg/players: cryptography, or lookups that would only add easy members.
- Redis itself: each command (ZADD GT/LT, ZINCRBY, ZRANGE, HINCRBY, SETNX, XREADGROUP, XAUTOCLAIM, SCAN) is one step on abstract state; network errors in the middle of a pipeline, cluster slots and TTL timing are not modelled.
- IEEE rounding: scores and bucket boundaries are reals, so float addition is exact and order free.
- Time below a second: instants are whole seconds.
- FNV-1a, random ids and Unicode tables: an arbitrary hash, given ids and an arbitrary lower-casing function.
- User timestamps in the registry: records hold the nickname only, so linearisation is up to timestamps.
- Get, GetByNickname and Nicknames of the stores: plain lookups.
- The retry loops of RedisStore.Rename and Delete: each read and script is a step of the registry machine, not a loop in a method.
- GroupConsumer as a class: its apply, Step, Reclaim and Run are steps of the group machine; stream ids are positions in append order, and malformed or undecodable stream messages are not modelled.
- RedisLog: the group machine abstracts it; only the in-memory log is a class.
- NoopDeduper and the expiry of idempotency keys.
- ShardedEngines.ShardedEngine.Neighbors: states members, scores, order and consecutive ranks; only the rank of the target is bounded, the others are offsets from it.
- Admission.ConfigAccepted: score bits are natural numbers; the code also has negative ones, which it refuses on firstToReach boards and ignores on others.
- Codec.DecodeEncode: stated below 2^63; EncodeOverflow covers the rest for amd64, other platforms are an input of the model.
- HistogramRace.HistogramExactIff: is about one approx board; the values written are arbitrary rather than tied to a policy, which only widens the runs covered.
- Groups.AtLeastOnce: is about scores. The group machine carries no histogram, because the increments of a batch travel in a later pipeline; HistogramRace covers those.
- Groups.InvStep: completes a removal with the boards present then; a board that an overlapping worker creates between the scan of a removal and its last board goes with it, while the code leaves it.
- Changing the config of a board, resharding, and rebuilding a window after it expired.
