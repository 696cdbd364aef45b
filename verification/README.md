# nxr-sdk data core: a model of storage, symbol matching and series building

The modules model seven parts of the Rust core as Dafny programs and state what those parts promise.
Code that changes things step by step is written as classes and loops and tied to a function of the
old state; the promises are lemmas about those functions over all inputs, all runs or all
interleavings. `dafny verify dfyconfig.toml` checks the project.

| file | part |
|---|---|
| `Jaro.dfy`, `JaroLaws.dfy`, `Resolver.dfy`, `ResolverGuard.dfy`, `ResolverLaws.dfy` | the greedy Jaro matcher over boolean arrays, the pruning bound, the asset resolver with its five indexes against a plain scan, and what its load-time collision guard catches |
| `ShardReader.dfy`, `ShardWriter.dfy`, `ShardRuns.dfy`, `ShardLaws.dfy`, `Manifest.dfy` | the daily-shard log: three readers on bytes, the delta-gated writer against a disk-only form, runs with reopens and crashes, the manifest |
| `Ohlc.dfy`, `CandleLaws.dfy`, `OhlcRollup.dfy`, `RollupLaws.dfy` | batch and pull resamplers, the hash-map rollup, and the laws between them |
| `Lag.dfy`, `LagLaws.dfy`, `LagConcurrent.dfy`, `LagTakes.dfy`, `LagOverlaps.dfy` | the log2 histogram, first sequentially, then as interleaved atomic steps, and what a take returns under them, kept apart or overlapped |
| `BarBuilder.dfy`, `BarFormulas.dfy` | the single-pass bar accumulator against whole-window formulas |
| `Grid.dfy`, `RenkoWalk.dfy`, `Renko.dfy`, `RenkoRuns.dfy`, `RenkoBricks.dfy`, `RenkoTicks.dfy`, `RenkoLaws.dfy` | the price grids and the renko engine: one walk, one call, whole runs |
| `Optional.dfy`, `IntSets.dfy`, `Extended.dfy` | options, maxima of finite sets, reals with infinities |

The files named `Laws` or `Formulas` say what each operation means in the fields of its inputs alone, with
every constant written out: bytes, milliseconds, flag bits, prices, ranks.

Prices, scores and times in seconds are exact reals; timestamps, volumes and counts are integers.
Where the width of an integer decides a result (tick counts of 32 bits, volumes and observation counts
of 64 bits, histogram counters of 32 bits) the wrap or saturation is written out; overflow follows the
release build, which wraps. Lemmas carry `{:induction false}`: every induction is spelled out.

Where the code and its documentation disagree the model follows the code:

- `lag.rs` promises an upper bound "at most 2x the true value". The factor holds if and only if the
  sample is under 16,384 or at least half the maximum (`Lag.TwiceExactlyWhen`, `OpenBucketIsLoose`).
  With counts below 2^32 the bound itself holds of a `take` if and only if each sample it took is at most
  the maximum it returns or its `record` has been through the maximum since the last swap
  (`LagOverlaps.FinishedTakeExactlyWhen`, `UndisturbedTakeExactlyWhen`). It fails for a record between
  its two steps (`LagTakes.InFlightDefeatsBound`), and even with nothing at work, after a record passed
  between the bucket swaps and the maximum swap of an earlier take (`LagOverlaps.OverlapDefeatsBound`).
- `renko.rs` promises `open[i] = close[i-1]`. A half-hour recompute re-snaps the anchor, bricks or no
  bricks, so the open is the previous close passed through all snaps in between
  (`RenkoBricks.OpensFollow`). With no seed in between it equals that close if and only if the close lies
  on every grid it was snapped to (`RenkoBricks.OpenIsPreviousClose`, `OpenIsNotPreviousClose`); a brick
  after a seed opens where the seed put the anchor, snapped likewise (`RenkoBricks.OpenAfterJump`).
- A body is not always the brick size: on an odd multiple of the 5-unit grid bodies are half a grid step
  larger going up and smaller going down (`RenkoWalk.BodyExact`). This is from an anchor on the grid; a seed
  off the grid also changes the first body after it, unless a recompute comes first.
- A resample rolled up equals the coarser resample only while tick counts fit 32 bits: one side wraps,
  the other saturates (`OhlcRollup.CommutesExactlyWhen`).
- The crypto collision guard compares with the current owner of a key only, so a twin behind a row of
  another class passes (`ResolverGuard.TwinsCanLoad`). It stays silent exactly when no rival holds the
  key or one row goes before all of them (`ResolverGuard.GuardSilentExactlyWhen`, `LoadsExactlyWhen`),
  and it is complete where crypto rows share no key with other classes
  (`ResolverGuard.GuardCompleteWithoutOverlap`, `TwinFreeExactlyWhen`).
- `grid.rs` speaks of a rounding error of about 0.15%; it is at most 0.1% (`Grid.Snap25Nearest`).

## Model

| member | source | states |
|---|---|---|
| Jaro.FindFree | rust/src/resolve.rs:136-144 | the inner loop finds the first unmarked equal character of the window, and its end when there is none |
| Jaro.MarkMatches | rust/src/resolve.rs:131-145 | the two loops over the boolean arrays leave exactly the greedy marking `Matching`, and the counter is the number of marks |
| Jaro.CountTranspositions | rust/src/resolve.rs:150-163 | the `while !m2[k]` scan never leaves the array when both sides hold equally many marks, and counts the positions where the two matched subsequences differ |
| Jaro.JaroCore | rust/src/resolve.rs:116-167 | on every pair of strings the in-place matcher returns the Jaro score of the greedy matching |
| Jaro.MatchingCounts | rust/src/resolve.rs:131-163 | both mark arrays hold equally many marks, at most the shorter length, and the matched subsequences are permutations of each other |
| Jaro.MatchingPairs | rust/src/resolve.rs:133-145 | after every round the marks are a one-to-one pairing of equal characters within the window |
| Jaro.MatchingMaximal | rust/src/resolve.rs:133-145 | no pair of equal characters within the window is left unmatched on both sides |
| Jaro.TranspositionsNeverOne | rust/src/resolve.rs:150-163 | the transposition count is never 1 |
| Jaro.SimilarityRange | rust/src/resolve.rs:116-167 | the Jaro score is in [0,1] and is 1 exactly on equal strings |
| Jaro.JaroWinklerRange | rust/src/resolve.rs:68-84 | Jaro-Winkler is in [0,1] and is 1 exactly on equal strings |
| Jaro.MatchesBounded | rust/src/resolve.rs:185-192 | the number of matches is at most either length and at most the characters of one string whose mask bit occurs in the other |
| Jaro.UpperBoundHolds | rust/src/resolve.rs:171-201 | for every pair of non-empty strings the cheap bound is at least the Jaro-Winkler score, and at most 1 |
| Jaro.PruningIsInvisible | rust/src/resolve.rs:203-219 | the skipped score equals the true one unless both are below the threshold |
| JaroLaws.GreedyMarks | rust/src/resolve.rs:131-145 | each character in turn takes the leftmost equal character within half the longer length less one that no earlier one took; the two arrays mark exactly these positions |
| JaroLaws.JaroLaw | rust/src/resolve.rs:116-167 | with m matched positions, t of them in different order, the score is the mean of m over either length and (m - t/2) / m, and 0 without matches |
| JaroLaws.JaroWinklerLaw | rust/src/resolve.rs:68-84 | the common prefix, four characters of it at most, brings that score a tenth of the way to 1 for each; 1 for equal strings, 0 when just one is empty |
| Resolver.ExactRank | rust/src/resolve.rs:323-331 | an entry has a rank for a key exactly when the key is its name or one of its aliases |
| Resolver.ArgMin | rust/src/resolve.rs:1372-1439 | the plain scan: the first admissible row with the least key, none when no row is admissible |
| Resolver.ArgMinOrderFree | rust/src/resolve.rs:283-287 | permuting rows with distinct keys does not change the winner |
| Resolver.GlobalOwnerIsLocal | rust/src/resolve.rs:495-513 | when the global owner of a key is in the wanted class it also owns the key inside that class |
| Resolver.BestField | rust/src/resolve.rs:520-530 | the best of an entry is attained by its name or the reported alias and no other field scores more |
| Resolver.PrunedField | rust/src/resolve.rs:520-534 | scoring with skipped candidates gives the same best score and field, or both stay below the threshold |
| Resolver.LoadsPrefix | rust/src/resolve.rs:395-424 | a table that loads has no collision at any of its rows |
| Resolver.AssetResolver.InsertChecked | rust/src/resolve.rs:390-452 | one key is entered into the global and the class index so that both hold the least (rank, class, id); it fails exactly on a crypto row against a different crypto owner |
| Resolver.AssetResolver.EnterKeys | rust/src/resolve.rs:454-457 | the name and every alias of a row are entered so that both key indexes describe the rows with this one appended, or one of its keys collides |
| Resolver.AssetResolver.AddEntry | rust/src/resolve.rs:379-460 | one row is added and every index still agrees with a scan of all rows, or the row collides |
| Resolver.AssetResolver.AddRows | rust/src/resolve.rs:366-462 | loading a list of rows succeeds exactly when no row collides with the rows before it, and lists the rows of the class |
| Resolver.AssetResolver.OpenClass | rust/src/resolve.rs:366-367 | preparing a class keeps every index as it is, the exact index of a class loaded before included; a class not seen before has no rows |
| Resolver.AssetResolver.LoadClass | rust/src/resolve.rs:365-463 | loading a class, for the first time or again, succeeds exactly when no row collides; the rows are appended, every key index describes them, and the class lists the new rows |
| Resolver.AssetResolver.ScoreEntry | rust/src/resolve.rs:519-534 | the loop over name and aliases with a mutable best returns the best pruned score and the first field reaching it |
| Resolver.AssetResolver.FindExact | rust/src/resolve.rs:491-514 | the two hash lookups for one key give what the least (rank, class, id) over a scan gives, with the same matched field |
| Resolver.AssetResolver.FindFuzzy | rust/src/resolve.rs:516-575 | the pruned scan returns the same asset, score and field as scoring every name and alias of every candidate |
| Resolver.AssetResolver.Find | rust/src/resolve.rs:465-576 | for every table, query, threshold and class filter the indexed search equals the plain scan: raw key, stripped key, then the best fuzzy candidate |
| Resolver.FindOrderFree | rust/src/resolve.rs:315-331 | when (class, id) pairs are distinct, row order never changes an answer |
| Resolver.FuzzyIsBest | rust/src/resolve.rs:516-575 | the fuzzy answer reaches the threshold, is attained, and no name or alias of any candidate scores more; there is none exactly when nothing reaches the threshold |
| ResolverLaws.ExactLaw | rust/src/resolve.rs:491-514 | an exact answer is there exactly when a wanted row has the non-empty key; it has confidence 1 and is the first such row: name or first alias before later alias, then class, then id |
| ResolverLaws.FuzzyLaw | rust/src/resolve.rs:516-575 | a fuzzy answer is there exactly when a score reaches the threshold; it has the highest score, the shortest name, the lowest class and id among equals, and names the field that reached it |
| ResolverLaws.AnswerLaw | rust/src/resolve.rs:465-576 | the raw key goes before the stripped one, and either before any fuzzy hit; a blank query or a class that was not loaded has no answer |
| ResolverLaws.Ask | rust/src/resolve.rs:465-576 | the indexed search gives that answer |
| ResolverLaws.LoadAndAsk | rust/src/resolve.rs:365-514 | in a loaded class the name or an alias of any line, as spelled in the table, finds an asset built from a line with that key, with confidence 1 |
| ResolverGuard.GuardSilentExactlyWhen | rust/src/resolve.rs:385-410 | the collision guard stays silent on a key of a crypto row if and only if no other crypto asset among the rows before holds the key, or some row that is no such rival holds it with a smaller exact key than all of them |
| ResolverGuard.LoadsExactlyWhen | rust/src/resolve.rs:379-460 | a table loads if and only if that holds of every key of every crypto row |
| ResolverGuard.GuardCompleteWithoutOverlap | rust/src/resolve.rs:385-410 | a table that loads, and in which no row of another class shares a key with a crypto row, has no two crypto assets with one key |
| ResolverGuard.TwinFreeExactlyWhen | rust/src/resolve.rs:385-410 | no two crypto assets share a key if and only if the crypto rows of the table load on their own |
| ResolverGuard.LoadedTwinsExactlyWhen | rust/src/resolve.rs:385-410 | a table that loads has two crypto assets with one key if and only if some row shields a contested key |
| ResolverGuard.TwinOnlyBehindOtherClass | rust/src/resolve.rs:395-424 | where the later asset has no earlier row of its own, the shield is the owner of the key, of another class, and goes before the earlier asset |
| ResolverGuard.TwinsCanLoad | rust/src/resolve.rs:398-410 | the collision guard is not complete: a concrete table with two crypto assets of one name loads |
| ShardReader.RecordCount | rust/src/shard.rs:626-627 | a file holds as many whole records as its length divided by the stride |
| ShardReader.RecordAt | rust/src/shard.rs:638-640 | the i-th record is the i-th stride-sized slice |
| ShardReader.RecordsSplit | rust/src/shard.rs:719-750 | records of a concatenation at a record boundary are the concatenated records |
| ShardReader.RecordsTorn | rust/src/shard.rs:614-619 | a torn tail shorter than a record changes nothing |
| ShardReader.ReadShardAligned | rust/src/shard.rs:620-642 | the whole-file reader returns exactly the whole records, for every byte sequence and stride, zero included |
| ShardReader.ReadShardTail | rust/src/shard.rs:660-687 | the tail reader returns the last min(n, count) whole records |
| ShardReader.ShardStream.Open | rust/src/shard.rs:706-717 | a fresh stream has all the records of the file to give |
| ShardReader.ShardStream.Fill | rust/src/shard.rs:725-733 | the read loop fills the buffer with the next bytes of the file under any pattern of short reads, to its end or the end of the file |
| ShardReader.ShardStream.Refill | rust/src/shard.rs:719-751 | a refill loses and repeats no record, and leaves an empty buffer only at the end |
| ShardReader.ShardStream.Next | rust/src/shard.rs:755-770 | the next record is the head of what remains; `None` exactly when nothing does |
| ShardReader.ShardStream.NextChunk | rust/src/shard.rs:783-800 | a chunk is a non-empty prefix of what remains; `None` exactly when nothing does |
| ShardReader.ShardStream.Drain | rust/src/shard.rs:772-782 | any interleaving of single records and chunks yields the same records in order |
| ShardReader.ReadersAgree | rust/src/shard.rs:620-800 | all three readers agree on every byte sequence, torn or not |
| ShardWriter.DayWindow | rust/src/shard.rs:1299-1303 | a timestamp is inside the cached day window exactly when the calendar puts it on that date |
| ShardWriter.Trim | rust/src/ipc/append_log.rs:139-164 | opening a log drops a torn tail and no whole record |
| ShardWriter.PutRecords | rust/src/shard.rs:1437-1439 | writing a record appends it to its day after healing the file, and touches no other day |
| ShardWriter.PutNewest | rust/src/shard.rs:1271-1304 | a write to a date not before the newest makes that date the newest |
| ShardWriter.SentinelSame | rust/src/shard.rs:1454-1455 | a sentinel carries the timestamp and the whole quote of the record it copies |
| ShardWriter.IdxShardWriter.Open | rust/src/shard.rs:1210-1238 | a freshly opened writer is seeded so that its fields describe the disk |
| ShardWriter.IdxShardWriter.SeedFromTail | rust/src/shard.rs:1243-1267 | the gate baseline, the sentinel clock and the date come from the last whole record of the newest shard |
| ShardWriter.IdxShardWriter.EnsureShard | rust/src/shard.rs:1271-1305 | the open log, date and day window are those of the requested date, and only that file is created or healed |
| ShardWriter.IdxShardWriter.WriteRecord | rust/src/shard.rs:1437-1439 | one write through the log: the file gains the record, the clock its timestamp, and the date is the newest |
| ShardWriter.IdxShardWriter.Route | rust/src/shard.rs:1373-1388 | the two-compare fast path decides the date and the day change as the calendar does |
| ShardWriter.IdxShardWriter.AppendWithNow | rust/src/shard.rs:1351-1469 | the writer with all its cached fields does to the disk, and answers, what `Step` computes from the disk alone: bounds, stragglers, gate, sentinel, rotation |
| ShardRuns.Perform | rust/src/shard.rs:1195-1469 | one append, clean reopen or crash on a live writer leaves the disk the run semantics says |
| ShardRuns.Replay | rust/src/shard.rs:1195-1469 | a whole run of appends, reopens and crashes on the writer leaves the disk of `Exec` |
| ShardRuns.RestartInvisible | rust/src/shard.rs:1240-1267 | the run semantics gives the same disk for any run and for that run without its clean reopens; `Replay` ties the writer to it |
| ShardRuns.RestartedDisksAgree | rust/src/shard.rs:1195-1469 | two disks with equal files, one driven through a writer with all its clean reopens and one without them, end with equal files, crashes included |
| ShardRuns.CrashKeepsPrefix | rust/src/ipc/append_log.rs:139-164 | a crash leaves of every day a prefix of its records |
| ShardRuns.CutWellFormed | rust/src/shard.rs:614-619 | cutting the newest shard at any byte keeps the disk well formed |
| ShardRuns.AfterWellFormed | rust/src/shard.rs:1351-1469 | every action keeps each record in the shard of its own date and each shard in time order |
| ShardRuns.RunWellFormed | rust/src/shard.rs:1381-1412 | so does every run |
| ShardRuns.AllRecordsSorted | rust/src/shard.rs:1389-1412 | read in date order the shards of a well-formed disk are non-decreasing in time |
| ShardRuns.ObservationHeld | rust/src/shard.rs:1413-1468 | after an accepted append the last record of that day carries the observation just fed, written or not |
| ShardRuns.ShardReconstructsDay | rust/src/shard.rs:1413-1468 | over any run, crashes and reopens included, each day's shard with repeats collapsed is what the last crash left of the day followed by every observation accepted since, with repeats collapsed: the gate loses no market state |
| ShardRuns.SentinelGapBound | rust/src/shard.rs:1450-1464 | in a run without crashes, with accepted observations at most g ms apart, written records are at most g + 59,999 ms apart |
| ShardRuns.WrittenIsOnDisk | rust/src/shard.rs:1437-1459 | the timestamps of the records written are exactly those the disk gains, in date and file order, behind all it held |
| ShardRuns.DiskGapBound | rust/src/shard.rs:1450-1464 | over any run, with observations accepted since the last crash at most g ms apart, every record written since follows the record before it on disk by at most g + 59,999 ms |
| ShardLaws.AnswerExactly | rust/src/shard.rs:1351-1469 | in milliseconds and flag bits: an append is rejected if and only if it is over 60,000 ms ahead or, without bit 1, over 730 days old; it is written if and only if moreover no later day and no later record of its day is on disk, and the gate is off, the day is empty, a field differs, or 60,000 ms have passed |
| ShardLaws.DiskExactly | rust/src/shard.rs:1413-1469 | an append that is not written changes nothing; one that is adds exactly one record behind those of its day and touches no other day: the bytes that came in, or with an unchanged quote those with bit 0 of the flag byte set |
| ShardLaws.RepeatsLeaveNothing | rust/src/shard.rs:1450-1468 | a repeated quote within 60,000 ms of the last record leaves the disk as it was; a new quote with the timestamp of the last record is kept |
| ShardLaws.CrashLaw | rust/src/shard.rs:614-619 | a crash keeps the first bytes of the latest shard and every other shard whole |
| ShardLaws.RunLean | rust/src/shard.rs:1413-1468 | over any run of a gated writer, reopens and crashes included, every record on disk differs in quote from the one before it, or is a sentinel at least 60,000 ms after it |
| ShardLaws.NewShardsLean | rust/src/shard.rs:1413-1468 | and so from an empty directory, for every shard |
| Manifest.SortKeeps | rust/src/shard.rs:885-885 | the sort orders by date and keeps the entries |
| Manifest.BeforeExactly | rust/src/shard.rs:885-885 | the order of dates is that of the first character in which they differ, the smaller first, a beginning before the whole |
| Manifest.InventoryUnique | rust/src/shard.rs:877-893 | a sorted list without repeated dates is determined by its entries |
| Manifest.ManifestFile.Upsert | rust/src/shard.rs:879-893 | an upsert turns the inventory of a history into the inventory of the history with the new entry: sorted, last duplicate wins |
| Manifest.ManifestFile.SetShardsBatch | rust/src/shard.rs:903-921 | the batch leaves the inventory of its entries, in any order and with any repeats |
| Manifest.BatchEqualsUpserts | rust/src/shard.rs:895-921 | a batch into an empty manifest equals one upsert per entry: same shards, same first and last time |
| Manifest.Rebuild | rust/src/shard.rs:903-921 | a rebuilt manifest holds of every date its last entry and no other, by ascending date, and spans from the first timestamp of the first shard to the last one of the last |
| Ohlc.BucketsNest | rust/src/ohlc.rs:172-174 | for N dividing M the M-bucket of an N-bucket's first and last millisecond is that of every timestamp in it, negative ones included |
| Ohlc.CombAssoc | rust/src/ohlc.rs:108-120 | merging candles is associative in all three counting modes |
| Ohlc.RunsCompose | rust/src/ohlc.rs:323-327 | grouping runs by N and then by M equals grouping by M |
| Ohlc.RunsView | rust/src/ohlc.rs:118-118 | wrapping and saturating tick counts are views of the exact count |
| Ohlc.TakeRecord | rust/src/ohlc.rs:224-243 | one record through the open bucket: skipped, merged, dropped as late, or closing the bucket |
| Ohlc.IdxToOhlc | rust/src/ohlc.rs:213-251 | the batch loop returns the candles of the resampling fold |
| Ohlc.OhlcStream.Next | rust/src/ohlc.rs:285-320 | a pull gives the head of the candles still to come |
| Ohlc.OhlcStream.Collect | rust/src/ohlc.rs:253-269 | pulling to the end gives all of them |
| Ohlc.ResamplersAgree | rust/src/ohlc.rs:204-320 | batch and stream give the same candles on every input |
| Ohlc.ResampleFoldsKept | rust/src/ohlc.rs:213-251 | resampling is grouping into runs exactly the records that pass the price guard and are not late |
| Ohlc.TimeOrderedKeepsAll | rust/src/ohlc.rs:208-212 | in time order no sane record is dropped |
| CandleLaws.CandleLaw | rust/src/ohlc.rs:95-251 | for any records in any order every candle is that of a non-empty list of them, all of its bucket: first and last mid, largest and smallest mid, sums of `vbid` and of `vask` modulo 2^64, their number modulo 2^32. The lists are in order and hold every accepted record that is not late, each once |
| CandleLaws.SaneIsPasses | rust/src/ohlc.rs:183-199 | accepted are the mids above 0 and below 10^15 that lie from half to twice the mid accepted last |
| CandleLaws.LateIsDropped | rust/src/ohlc.rs:224-243 | a record is dropped exactly when an accepted record of a later bucket came before it |
| OhlcRollup.Rollup | rust/src/ohlc.rs:328-393 | the hash-map loop returns the candles of the key-ordered fold |
| OhlcRollup.InKeyOrder | rust/src/ohlc.rs:388-392 | the drain returns the buckets by ascending key, each once |
| OhlcRollup.RollupIsRuns | rust/src/ohlc.rs:328-393 | on time-ordered bars that straddle nothing the hash map is plain grouping into runs |
| OhlcRollup.ResampleCommutes | rust/src/ohlc.rs:323-393 | in time order, for N dividing M, rolling the N-candles up and resampling at M are the saturating and the wrapping view of one exact series |
| OhlcRollup.CommutesExactlyWhen | rust/src/ohlc.rs:118-118 | they are equal if and only if every exact tick count is below 2^32 or reads 2^32 - 1 in 32 bits |
| OhlcRollup.CommutesBelow32Bits | rust/src/ohlc.rs:323-393 | and so for every series of fewer than 2^32 records |
| OhlcRollup.CommuteFailsAt32Bits | rust/src/ohlc.rs:118-118 | 2^32 records on which they differ: one count wraps and the other saturates |
| OhlcRollup.RollupComposes | rust/src/ohlc.rs:323-393 | rolling N to M to K equals N to K, saturating tick counts included |
| OhlcRollup.RollupConservesVolume | rust/src/ohlc.rs:377-386 | for any series output volume is input volume plus one extra copy of each straddling bar, modulo 2^64 |
| OhlcRollup.RollupConservesVolumeExactly | rust/src/ohlc.rs:377-386 | and exactly so when that sum is below 2^64 |
| OhlcRollup.RollupWellShaped | rust/src/ohlc.rs:340-375 | low <= open, close <= high is kept for any series |
| RollupLaws.RollupLaw | rust/src/ohlc.rs:328-393 | for any series every rolled-up candle is that of the bars that open or close in its bucket, straddling ones included: the open of the first, the close of the last that closes there, extremes, volumes modulo 2^64 and saturated tick count; candles ascend, and every touched bucket has one |
| Lag.BucketRange | rust/src/lag.rs:14-18 | bucket 0 is 0 ms, bucket k is [2^(k-1), 2^k - 1], the last starts at 16,384 |
| Lag.EdgeBounds | rust/src/lag.rs:20-23 | the edge of a sample's bucket is at least the sample and below twice it for positive samples under 16,384 |
| Lag.LagHist.Record | rust/src/lag.rs:40-46 | the counters become those of one more sample |
| Lag.LagHist.Snap | rust/src/lag.rs:49-55 | a snapshot is the histogram of everything recorded, counts modulo 2^32 |
| Lag.LagHist.Take | rust/src/lag.rs:57-62 | a take returns that histogram and starts an empty one |
| Lag.Quantile | rust/src/lag.rs:100-114 | `None` exactly when the histogram is empty, otherwise the edge of the bucket that holds the rank, capped at the maximum |
| Lag.RankBucket | rust/src/lag.rs:105-112 | the bucket that holds the rank is the bucket of the rank-th smallest sample |
| Lag.QuantileBounds | rust/src/lag.rs:1-23 | the reported value is at least the rank-th smallest sample, below twice it under 16,384, and the maximum in the open bucket |
| Lag.TwiceExactlyWhen | rust/src/lag.rs:6-8 | the reported value is at most twice the rank-th smallest sample if and only if that sample is under 16,384 or at least half the maximum |
| Lag.Report | rust/src/lag.rs:100-114 | for every q, a snapshot's quantile bounds the order statistic of the rank that q asks for in these ways, and there is one exactly when something was recorded; which rank that is states `LagLaws.RankLaw` |
| LagLaws.RankLaw | rust/src/lag.rs:105-105 | the rank is the least one that is at least q times the number of samples, within 1 and that number; above 1 it is that number |
| LagLaws.Answer | rust/src/lag.rs:100-114 | for every q the report stands for the smallest sample with at least q of all samples at or below it, the smallest of all for q at most 0 and the largest for q above 1; it is the top of that sample's bucket or the maximum, whichever is less, and the maximum from 16,384 on |
| LagLaws.QuantileUnique | rust/src/lag.rs:100-114 | there is only one such sample |
| LagLaws.SinceLaw | rust/src/lag.rs:83-97 | a counter that went down makes the later snapshot the window; else counters are subtracted and the maximum is the top of the last bucket in use, capped at the recorded one |
| LagLaws.MergeLaw | rust/src/lag.rs:76-81 | merged counters add up and stop at 2^32 - 1; the maximum is the larger one |
| Lag.RankthExists | rust/src/lag.rs:105-112 | every rank up to the number of samples has its sample |
| Lag.WrappedWindowReadsEmpty | rust/src/lag.rs:41-41 | 2^32 equal samples wrap their counter: the window reads empty and is not the histogram of its samples |
| Lag.OpenBucketIsLoose | rust/src/lag.rs:6-8 | the header's "at most 2x" fails in the open bucket: 16,384 is reported as 100,000 |
| Lag.SinceIsWindow | rust/src/lag.rs:83-97 | the difference of two snapshots is exactly the window's histogram if and only if no counter wrapped |
| Lag.SinceQuantileBounds | rust/src/lag.rs:83-97 | and its quantiles keep the upper bound, and the factor 2 under 16,384 |
| Lag.SinceTwiceExactlyWhen | rust/src/lag.rs:83-97 | such a quantile is at most twice the sample if and only if the sample is under 16,384 or at least half of the maximum of everything recorded |
| Lag.Merge | rust/src/lag.rs:76-81 | the in-place loop gives saturating sums and the larger maximum |
| Lag.MergeIsConcat | rust/src/lag.rs:76-81 | merging two histograms gives that of all samples together |
| Lag.AdjacentWindowsMerge | rust/src/lag.rs:76-97 | two adjacent windows merge to the whole one, maximum included |
| LagConcurrent.StepConserves | rust/src/lag.rs:40-62 | every atomic step of any thread keeps: counter = samples added and not taken, a drain holds what it swapped out |
| LagConcurrent.RunConserves | rust/src/lag.rs:40-62 | so does every interleaving |
| LagConcurrent.TakenOnce | rust/src/lag.rs:56-62 | a sample once taken stays with that take for the rest of any run |
| LagConcurrent.EverySampleAccounted | rust/src/lag.rs:40-62 | in the history of a run each sample added to a bucket is untaken or with exactly one take |
| LagConcurrent.SnapshotsNeverGoBack | rust/src/lag.rs:83-90 | with no take and no wrapped counter, successive snapshots of one reader never go down, so `since` never mistakes live traffic for a restart and returns exactly the growth |
| LagConcurrent.QuietRun | rust/src/lag.rs:56-62 | as long as no record overlaps a take, at every step the maximum covers every pending sample but those of records between their two steps, and every finished take has the maximum of its own samples |
| LagConcurrent.QuietDrainsAreExact | rust/src/lag.rs:56-62 | then every take is the exact histogram, maximum included, of the samples it took |
| LagConcurrent.DrainThrough | rust/src/lag.rs:57-62 | an uninterrupted take returns the counters and the maximum as they were |
| LagTakes.SamplesConserved | rust/src/lag.rs:40-62 | after any interleaving, the samples recorded in a bucket are its counter plus what finished takes returned plus what unfinished takes have swapped out, modulo 2^32 |
| LagTakes.TakeReturns | rust/src/lag.rs:57-62 | from any state a take that is not interrupted can start and end, and returns the counters and the maximum it found |
| LagTakes.SnapReturns | rust/src/lag.rs:48-54 | an uninterrupted snapshot returns the counters and the maximum, and changes nothing |
| LagTakes.RecordReturns | rust/src/lag.rs:40-46 | an uninterrupted record adds one to the counter of its bucket, raises the maximum only for a new high, and changes nothing else |
| LagTakes.TakeCoversExactlyWhen | rust/src/lag.rs:40-62 | where the takes so far were kept apart from records and from each other, and none is under way: the maximum an undisturbed take returns covers every sample it took if and only if no record between its two steps holds a sample above the current maximum |
| LagTakes.TakeBoundsExactlyWhen | rust/src/lag.rs:1-23 | and under the same condition, and no other, every quantile of that take is an upper bound of its order statistic, counts below 2^32 |
| LagTakes.ReachedTakeBoundsExactlyWhen | rust/src/lag.rs:40-62 | this is so at the end of every run from an empty histogram that keeps its takes apart in this way |
| LagTakes.InFlightDefeatsBound | rust/src/lag.rs:40-62 | the condition fails in a concrete run: 5 ms added, the maximum still 0, and the take reports a quantile below its only sample |
| LagOverlaps.MaximumIsRaised | rust/src/lag.rs:40-62 | after any interleaving, overlaps included, the maximum is exactly the largest sample whose record has been through it since it was last swapped out, 0 when there is none |
| LagOverlaps.UndisturbedTakeExactlyWhen | rust/src/lag.rs:1-62 | at the end of any run the maximum of an undisturbed take covers what it took, and with counts below 2^32 all its quantiles are upper bounds, if and only if every pending sample whose record has not been through the maximum since it was last swapped out is at most the maximum |
| LagOverlaps.TakeEndsExactlyWhen | rust/src/lag.rs:57-62 | the same for any take at its last step, whatever ran between its steps, with the samples it took in place of the pending ones |
| LagOverlaps.FinishedTakeExactlyWhen | rust/src/lag.rs:1-62 | every finished take of every run is sound for the samples it holds at the end of the run if and only if none of them was behind the maximum at the step that ended it |
| LagOverlaps.TakeHasEnd | rust/src/lag.rs:57-62 | every finished take of a run has such a step, and returned the counters it had swapped out by then |
| LagOverlaps.ApartCondition | rust/src/lag.rs:40-62 | with takes kept apart the general condition is the one on records at work alone |
| LagOverlaps.OverlapDefeatsBound | rust/src/lag.rs:40-62 | a concrete run with an overlapped take: afterwards every thread is idle and the maximum is 0, and the next take, undisturbed, reports its only sample, 5 ms, from that maximum |
| BarBuilder.BipowerBelowVariance | rust/src/bar_builder.rs:141-152 | the bipower sum is between 0 and the realized variance for every list of returns |
| BarBuilder.VarianceBetween | rust/src/bar_builder.rs:141-145 | with all returns within m the variance is within n times m squared, and no squared return exceeds it |
| BarBuilder.MaxReturnBounds | rust/src/bar_builder.rs:146-148 | the squared tail indicator is at most the realized variance, which is at most the number of returns times it |
| BarBuilder.ImbalanceBounded | rust/src/bar_builder.rs:153-158 | signed volume is within total volume |
| BarBuilder.DenominatorNonNegative | rust/src/bar_builder.rs:190-192 | the regression denominator is never negative |
| BarBuilder.SseShift | rust/src/bar_builder.rs:118-124 | the squared error of a moved line, exactly |
| BarBuilder.NormalEquationsMinimize | rust/src/bar_builder.rs:189-196 | a line meeting both normal equations minimizes the squared error over all lines |
| BarBuilder.SlopeIsLeastSquares | rust/src/bar_builder.rs:189-196 | the slope computed from the running sums is that of the least-squares line through the window's points |
| BarBuilder.BarLaws | rust/src/bar_builder.rs:174-250 | every bar: low <= open, close <= high, abs(imbalance) <= 1, bipower and tail bounds, reject rate at least 0, and at most 1 if and only if the two 64-bit observation counters together do not pass 2^64 |
| BarBuilder.BarAccumulator.constructor | rust/src/bar_builder.rs:74-86 | a new accumulator stands for the empty window |
| BarBuilder.BarAccumulator.Ingest | rust/src/bar_builder.rs:97-170 | after any ingest every one of the running sums is its formula over the whole window with the new tick |
| BarBuilder.BarAccumulator.ReadBar | rust/src/bar_builder.rs:174-250 | the bar read off the running sums is the one of the whole-window formulas, for any number of ticks the 32-bit counter does not read as zero |
| BarBuilder.BarAccumulator.Flush | rust/src/bar_builder.rs:174-250 | that bar is handed over and the next window starts empty; `None`, with nothing changed, exactly when the 32-bit tick counter reads zero |
| BarBuilder.BarOfWholeWindow | rust/src/bar_builder.rs:97-125 | below 2^32 ticks these formulas are over the window as it stands: first tick, elapsed seconds from it, drift and averages over all of it |
| BarFormulas.PriceFormula | rust/src/bar_builder.rs:109-118 | a bar opens and closes with the mid and the time of its first and last tick, and its high and low are the extremes of its mids |
| BarFormulas.VolumeFormula | rust/src/bar_builder.rs:119-120 | volumes are summed in 64 bits and stop at 2^32 - 1 |
| BarFormulas.VarianceFormula | rust/src/bar_builder.rs:141-152 | with the log returns between neighbouring positive mids: realized variance is the sum of their squares, bipower variance pi/2 times the sum of products of neighbouring absolute ones, the tail indicator the largest absolute one |
| BarFormulas.FlowFormula | rust/src/bar_builder.rs:153-158 | imbalance is the volume of rising ticks less that of falling ones over the volume of all returns, 0 without volume |
| BarFormulas.SpreadFormula | rust/src/bar_builder.rs:131-140 | the spread is the mean over ticks with a positive mid and ask above bid of ask less bid over mid, in basis points; absent without such a tick |
| BarFormulas.QualityFormula | rust/src/bar_builder.rs:162-166 | confidence is averaged over accepted observations; the reject rate is the rejected over all observations |
| BarFormulas.DriftFormula | rust/src/bar_builder.rs:186-202 | drift is the slope of the line of least squared error through seconds and mids, times the duration, over the close; 0 where there is none |
| Grid.LogBrackets | rust/src/grid.rs:24-24 | `floor(log10 x)` brackets x between two powers of ten |
| Grid.LogUnique | rust/src/grid.rs:24-24 | and is the only exponent that does |
| Grid.SnapNearest | rust/src/grid.rs:50-57 | a snapped price is within half a step and no multiple of the step is nearer |
| Grid.SnapOnGrid | rust/src/grid.rs:50-57 | snapping twice changes nothing |
| Grid.SnapMonotone | rust/src/grid.rs:50-57 | snapping keeps the order of prices |
| Grid.SnapHalf | rust/src/grid.rs:56-56 | a price half way between two grid points moves half a step, away from zero |
| Grid.SnapInDecade | rust/src/grid.rs:24-29 | snapping a size never leaves its decade except to the first point of the next |
| Grid.Snap25Nearest | rust/src/grid.rs:9-34 | the snapped size lies on the 2-unit or the 5-unit grid, no point of either is nearer, and the error is at most a thousandth of the value |
| Grid.Snap25Idempotent | rust/src/grid.rs:20-34 | snapping a size twice changes nothing, also across a decade |
| Grid.BrickOnGrid | rust/src/grid.rs:37-48 | a snapped size is at least 500 steps of its close grid and lies on that grid or exactly half way between two of its points |
| Grid.StepsNest | rust/src/grid.rs:37-48 | of any two close grids the engine can use one contains the other |
| RenkoWalk.StepMoves | rust/src/renko.rs:470-473 | one brick moves strictly, by the size within half a grid step; the guard against a close that does not move never fires |
| RenkoWalk.TickSettles | rust/src/renko.rs:465-514 | the closes of one price go in one direction, each strictly and by the size within half a grid step, and stop at the budget or less than a brick from the price |
| RenkoWalk.BodyExact | rust/src/renko.rs:470-470 | from a grid anchor the body is the size when it lies on the close grid, else half a step more going up and half a step less going down |
| RenkoWalk.PaidWhole | rust/src/renko.rs:469-469 | on a grid size the count law is the move divided by the size |
| RenkoWalk.ClimbsExactly | rust/src/renko.rs:469-495 | an upward price lays equal bodies, exactly as many as the move pays for, up to the cap |
| RenkoWalk.FallsExactly | rust/src/renko.rs:497-514 | and a downward one |
| RenkoWalk.WholeBricks | rust/src/renko.rs:465-514 | with the size on its grid the count is min(cap, floor(abs(move) / size)) |
| Renko.FeedSound | rust/src/renko.rs:427-517 | every call keeps the state sound: a positive size is snapped and its grid is the one derived from it |
| Renko.RenkoGenerator.constructor | rust/src/renko.rs:216-232 | a new generator is in the fresh state with an empty microstructure window |
| Renko.RenkoGenerator.New | rust/src/renko.rs:104-118 | creation succeeds exactly for a configuration inside its bounds |
| Renko.RenkoGenerator.ComputeBrickSize | rust/src/renko.rs:290-307 | the size, grid and half hour become those of the snapped raw brick, or 0 below the multiplier floor without touching the half hour |
| Renko.RenkoGenerator.EmitBar | rust/src/renko.rs:339-389 | one brick is handed over and counted when the consumer takes it; the microstructure is flushed either way |
| Renko.RenkoGenerator.LayBrick | rust/src/renko.rs:485-493 | a written brick is the one the walk prescribes and moves anchor, window, start time and tick count; a failed write changes none of them |
| Renko.RenkoGenerator.Climb | rust/src/renko.rs:468-495 | the upward loop terminates with the anchor less than a brick below the price or 1000 bricks laid, and leaves nothing for the downward loop once it fired |
| Renko.RenkoGenerator.Fall | rust/src/renko.rs:497-514 | the downward loop completes the walk |
| Renko.RenkoGenerator.FeedTickWithSigma | rust/src/renko.rs:427-517 | the two loops over the fields do exactly what `Feed` says of state, bricks and failure, and the first brick alone carries the microstructure of the window |
| Renko.RenkoGenerator.FeedIndexRecord | rust/src/renko.rs:397-421 | a record without a positive mid changes nothing; any other enters the microstructure before its tick is fed |
| Renko.RenkoGenerator.SetMultiplier | rust/src/renko.rs:264-267 | a new multiplier, raised to the floor, and nothing else |
| Renko.RenkoGenerator.SeedLastClose | rust/src/renko.rs:280-288 | a seed moves the anchor and empties the window; the start time stays |
| RenkoRuns.Generate | rust/src/renko.rs:521-536 | feeding a whole run gives the state and bricks of the run semantics, and the bar counter tells how many |
| RenkoRuns.TickCounted | rust/src/renko.rs:437-437 | a tick is counted once, in the bricks it lays or in the pending count |
| RenkoRuns.TicksConserved | rust/src/renko.rs:437-495 | over any run the ticks of the bricks plus the pending count are the ticks fed, modulo 2^32 |
| RenkoRuns.TicksConservedExactly | rust/src/renko.rs:437-495 | and exactly below 2^32 ticks |
| RenkoRuns.TimesChain | rust/src/renko.rs:485-494 | over any run of a live engine each brick opens when the previous one closed |
| RenkoRuns.FreshRunTilesTime | rust/src/renko.rs:427-436 | from a fresh generator the first brick opens at the first tick |
| RenkoRuns.SeededRunOpensAtZero | rust/src/renko.rs:280-288 | a generator primed by a seed stamps its first brick with open time 0 |
| RenkoRuns.FailedTickResumes | rust/src/renko.rs:485-493 | a failed tick and the next one at the same price in the same half hour lay one unbroken walk, at any number of bricks: the one a single tick would have laid as long as both rooms together are within the cap |
| RenkoBricks.OpensFollow | rust/src/renko.rs:451-495 | over any run each open is the previous close passed through exactly the grid snaps of the recomputes in between |
| RenkoBricks.LogLaid | rust/src/renko.rs:368-389 | the log of that statement holds exactly the bricks written, in order |
| RenkoBricks.OpenFromGap | rust/src/renko.rs:451-495 | in any run each brick opens at the close of the brick before it, moved by exactly what the log holds between the two |
| RenkoBricks.LandsBackExactlyWhen | rust/src/grid.rs:50-57 | snapping a price to a list of engine grids one after the other gives it back if and only if it lies on every one of them |
| RenkoBricks.OpenIsPreviousClose | rust/src/renko.rs:30-43 | for every two neighbouring bricks of any run with only recomputes between them, the open is the previous close if and only if that close lies on the grid of every recompute in between |
| RenkoBricks.OpenAfterJump | rust/src/renko.rs:280-288 | with a seed in between, the brick opens where the last one put the anchor, snapped by the recomputes after it, and equals the previous close exactly when that gives it |
| RenkoBricks.SeedlessNeverJumps | rust/src/renko.rs:280-288 | a live run without seeds never moves the anchor in any other way, so this covers all its bricks |
| RenkoBricks.OpenMovesOnlyOffGrid | rust/src/renko.rs:451-454 | a tick's first brick opens at the anchor the tick finds if and only if no recompute is due or that anchor lies on the new grid |
| RenkoBricks.OpenIsNotPreviousClose | rust/src/renko.rs:451-454 | the unconditional claim fails: a run in which a brick closes at 110.02 and the next opens at 110 |
| RenkoBricks.QuietRun | rust/src/renko.rs:437-463 | while nothing is written the pending window collects every counted price and tick and nothing else |
| RenkoBricks.BrickSpansItsTicks | rust/src/renko.rs:309-335 | the first brick after a quiet stretch of any length spans it: start time, tick count, and high and low as the extremes of its body and all counted prices; later bricks of the tick are synthetic, empty and wickless |
| RenkoBricks.NothingPending | rust/src/renko.rs:486-494 | after a tick that wrote bricks no price, tick or time is pending |
| RenkoTicks.TickLays | rust/src/renko.rs:456-517 | from any sound state one tick lays bricks one way, at most 1000 and at most the room, each strictly and within half a grid step of the size, and ends within a brick of the price unless capped or failed; it fails exactly when the room runs out first |
| RenkoTicks.EveryTickLays | rust/src/renko.rs:427-517 | this is so at every tick of every run of a generator: after any ticks, failed writes, new multipliers and seeds |
| RenkoTicks.IdleTick | rust/src/renko.rs:456-459 | without a size or a positive price nothing is laid; a multiplier below the floor leaves no size |
| RenkoTicks.BricksStretched | rust/src/renko.rs:322-335 | the wick never cuts into the body |
| RenkoTicks.RunGridded | rust/src/renko.rs:427-517 | in every run without seeds on positive prices the anchor is non-negative and on the grid of the current size |
| RenkoTicks.TickCounts | rust/src/renko.rs:465-514 | from such a state the number of bricks and every body are exact, and with a grid size the count is min(cap, floor(abs(move) / size)) |
| RenkoLaws.FourFiguresLaw | rust/src/grid.rs:9-34 | a snapped size is a multiple of 2 or of 5 units of its fourth figure, none is nearer, the 2-unit one wins a tie, and it is within a thousandth |
| RenkoLaws.SizeLaw | rust/src/renko.rs:290-307 | after the first tick and the first one of each later 1,800,000 ms the size is within a thousandth of price times multiplier times volatility, or of price times the floor where that is more; below a multiplier of 0.05 it is 0; in between it stays |
| RenkoLaws.FirstTickLaw | rust/src/renko.rs:427-436 | the first tick lays nothing and anchors at the grid point nearest to its price |
| RenkoLaws.AnchorLaw | rust/src/renko.rs:449-454 | a later tick starts from the anchor it finds, moved to the nearest point of the new grid exactly when the size was computed again |
| RenkoLaws.CountingTickLaw | rust/src/renko.rs:456-459 | a tick without a size or a positive price only counts |
| RenkoLaws.QuietTickLaw | rust/src/renko.rs:461-462 | a tick that lays nothing adds its price to the pending high and low |
| RenkoLaws.BrickFieldsLaw | rust/src/renko.rs:465-514 | the first brick of a tick has the time, ticks, high and low of everything since the brick before; the others are empty, synthetic and wickless, and open at the close before |
| RenkoLaws.AfterBricksLaw | rust/src/renko.rs:485-494 | after bricks nothing is pending, the clock is at the tick and the anchor at the last close |
| RenkoLaws.BrickWalkLaw | rust/src/renko.rs:465-514 | each brick is paid for by the move that is left and closes at the grid point nearest to a whole size from its open, in one direction, until less than a size is left or 1000 are laid; the call fails exactly when the room runs out before |
| RenkoLaws.TuneAndSeedLaw | rust/src/renko.rs:264-288 | a multiplier is raised to 0.05; a seed moves the anchor, empties the window and is live exactly when positive |
| RenkoLaws.Create | rust/src/renko.rs:104-118 | a configuration is accepted exactly with a multiplier from 0.001 to 1,000,000 and a floor of at least 0, and the new engine is idle |
| RenkoLaws.FeedRecord | rust/src/renko.rs:339-421 | a record without a positive mid is ignored; else the first brick carries the bar of all records since the last attempt, this one included, and the next window starts empty |

## Left out

- Floating point: rounding, NaN and infinite inputs, and `f32` narrowing of multipliers and bar fields; all arithmetic is on exact reals.
- Square-root and integer encodings of `avg_ci_ubp` and `reject_rate`; the bars carry the unencoded averages, and the resampling laws say nothing of `avg_ci_ubp`.
- `ln` in the bar accumulator is a parameter: the laws hold for any function in its place.
- File locks, fsync and group-commit timing, paths, digests, storage policy, directory listing; the disk is a map from date to bytes, and an append either happens or is cut by a crash of the newest shard.
- I/O errors of the shard reader and writer, the manifest refresh on rotation, and `BarShardWriter`, which enforces no order.
- The date fallback for timestamps outside the calendar's range, which 48-bit record timestamps cannot reach, and 64-bit overflow of timestamps.
- `last_updated` of the manifest, a clock reading.
- CSV contents, text normalization, suffix stripping, quote detection and class pins; normalization and stripping are parameters of the resolver, and names are compared by the byte length given with them.
- Resolver.AssetResolver.Find: the search is specified for tables in which each class was loaded once, as the constructor of the source does. Loading a class again is covered by `LoadClass`, after which the class lists only its newest rows while the exact indexes keep all.
- ShardReader.ReadShardTail: for a window of more than 2^64 bytes the source saturates, so one of the file and the window must fit 64 bits.
- ShardRuns.SentinelGapBound: stated without crashes, because the records a crash cuts leave a real hole; `DiskGapBound` covers runs with crashes, from the last one on.
- BarFormulas.PriceFormula: like the other formulas there for windows of fewer than 2^32 ticks; what a longer window gives after its 32-bit counter wraps is in `BarBuilder.BarAccumulator.ReadBar`.
- RenkoLaws.FeedRecord: for the same windows; `Renko.RenkoGenerator.FeedIndexRecord` has no such bound.
- The consumer of renko bricks is a number of bricks it accepts before failing; bricks hold geometry, and their microstructure is a parallel list.
- The jump guard and reseeding of the live renko wrapper, flat bars and the 10-second stamps.
- Memory ordering: the histogram uses relaxed operations on separate atomics, and the model interleaves their steps in one order that all threads see. Reorderings between different atomics are not covered.
- The client, transport, publisher, metrics, logging, memory, hot reload, configuration and bindings: sockets, lookup tables and plain wrappers.
- `tdwap.rs`, `udp_auth.rs`, the multi-timeframe and volatility helpers, and the modules not named above: not modelled.
