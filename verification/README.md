# Sloop, modelled and verified in Dafny

Sloop keeps the history of a Kubernetes cluster in an ordered key/value store. Keys are strings
`/table/partition/kind/namespace/name/tail`, partitions are hours or days, and everything the
program knows about time it reads off the order of these strings. This project models that store,
what is written to it, what is read from it and what is thrown away, and proves what the parts
promise together.

The main results, each over every input or every run:

1. **The history of a resource is lossless** (`History.GetResPayload`). Range read, previous-key
   lookup and removal of duplicates together answer, for every instant of a query, with the payload
   of the latest stored record. It rests on `WatchTable.GetPreviousKey` refining a scan by time and on
   `RangeReads.RangeRead` being a filter of the whole table.
2. **It is the history of what came in** (`ReceivedHistory.HistoryIsWhatCameIn`): whatever else is processed,
   in whatever order, that record is the latest one received. Of nodes whose minor updates are dropped the
   same holds after cleaning (`ReceivedHistory.NodeHistoryIsWhatCameIn`, `WatchUpdates.DedupePreservesMeaning`).
3. **Every reachable store is sound** (`Ingestion.AlwaysSound`): whatever is processed and removed, from the
   empty store on, keeps what queries, counting and cleanup rely on.
4. **Counts of events are conserved over runs**, through diff, clip, spread and store: what is added is what the
   records report, the last counts of the segments between restarts, if the new range of every record counts
   in full, and on amd64 only then (`EventRuns.RunConserves`, `EventRuns.OwedBySegments`). In between may come
   anything that does not count for the same object and reason (`Ingestion.LoopConserves`); across a partition
   boundary counts are repeated (`Ingestion.LoopAcrossPartitions`).
5. **Informers are never closed twice and never lost** in any interleaving of refreshes, one `Stop`
   and the event handlers (`KubeWatcher.NeverClosedTwice`, `KubeWatcher.StopClosesEverything`,
   `KubeWatcher.RefreshReconciles`), and exactly what is handed over before the flag is set is sent
   (`KubeWatcher.SentIsWritten`).
6. **Garbage collection selects exactly what it must and removes exactly what it selects**
   (`GarbageCollection.GetPartitionsToDelete`, `Cleanup.DoCleanup`), and key by key it ends exactly when no
   row is in the way (`Cleanup.EndsIffUnblocked`).
7. **Overlays end up inside the rows that show them exactly when they met them all and these rows have a
   moment in common** (`Heatmap.AdjustedIsInside`); the whole query says when that is, in instants
   (`HeatmapQuery.EventHeatMap`).

## Reading order

`ByteStrings`, `Decimal`, `Partitions` and `WatchKeys` are about strings and their order. `Store` is the
ordered map with its iterators; `Tables`, `WatchTable` and `RangeReads` are the generated table code (the
model follows the instance for watch records; the other three are the same up to type names); `History`
is the query on top. `WatchUpdates`, `EventSpread`, `EventCounts` and `EventRuns` are the writing side,
`PartitionCounts`, `GarbageCollection`, `KeyDeletion` and `Cleanup` the cleanup, and `Ingestion` the loop that
brings them together. `ReceivedHistory` leads from the channel to the query. `KubeWatcher` are the informers, `Heatmap` and `HeatmapQuery` the time line.

Methods follow the loops and the in-place updates of the source and are proved against functions and
predicates on values; lemmas then say what these mean. Times are integers (nanoseconds since 1970 in
UTC, or Unix seconds); a `char` is a byte; a Go panic is a precondition or, where its condition is the
result, a value.

## What the model takes as given

- Records arrive as Kubernetes delivers them (`Ingestion.Delivered`): fields are ASCII without slashes, names
  are not empty and do not end in `.`, years have four digits, and all timestamps print with equally many
  digits (as nanoseconds they have 19 from September 2001 until April 2262, when int64 ends). What is then
  stored (`Ingestion.Sound`) is proved, not assumed: `Ingestion.ProcessRecord` and `Cleanup.DoCleanup` keep it.
  `WatchKeys.SeekPastShorter` says what goes wrong when the numbers of digits differ.
- The store is the in-memory one of `mock.go`. Its reverse `Seek` ends strictly below the key, which is no
  difference here: every reverse seek is for a string that ends in the two bytes of `string(rune(255))`,
  and no stored key does. Its `Valid` does not look at the prefix, so `Tables.Table.GetMaxKey` may find a key
  of another table when its own is empty; `GetMinMaxPartitions` asks for the first key before, and then
  (`Tables.ExtremeRows`) the key found is the right one.
- Extraction from JSON and the cleaning of node payloads are arbitrary functions.
- `Stop` is called once: a second call returns with the lock held
  (`KubeWatcher.KubeWatcherImpl.Stop`). The list of custom resource definitions has no duplicates, and at most
  one refresh is in flight.

## Where the code falls short of its promise

- An event whose first and last timestamp are equal is divided 0 by 0 when it is clipped; its count becomes
  the machine's `int(NaN)` (`EventSpread.InstantsAreLost`), which on amd64 adds nothing to the table, so that
  the count of a whole run is too low (`EventRuns.RunConserves`).
- An event that goes on in another partition is counted there from its start, since the previous copy is only
  looked for in one partition (`Ingestion.LoopAcrossPartitions`).
- An event that finds the store empty is dropped, and no error is reported, because a nil error is wrapped
  (`EventRuns.DroppedIffEmpty`).
- With a time limit shorter than a partition the cleanup reads past the end of its list
  (`GarbageCollection.RunsOffTheEnd` is the exact condition, `Ingestion.CleanupCanRunOff` an input).
- Deletion by keys loops forever unless enough matching keys come first in the whole store
  (`KeyDeletion.EndsIffEnoughLead`). Since tables are not deleted in the order of their keys, a partition that
  holds the record and the summary of one resource can never be deleted that way
  (`Cleanup.WatchRowsAreBlocked`, `Ingestion.ProcessedIsBlocked`).
- The adjustment of overlays compares seconds with a limit that its names and the factor 1000 call
  milliseconds; the model keeps the numbers. Minutes that do not meet their row, and minutes of equally named
  nodes that did not exist at the same time, end up outside (`Heatmap.AdjustedIsInside`,
  `Heatmap.SharedOverlaysEscape`).
- A list that repeats a definition leaks an informer (`KubeWatcher.RefreshLeaksOnDuplicates`).

## Model

| member | source | states |
|---|---|---|
| Partitions.IdOrder | pkg/sloop/store/untyped/partition.go:23-34 | Below 10^12 the zero-padded ids compare as strings exactly as their starts compare as numbers, and are equal only for equal starts |
| Partitions.IdBeforeEpoch | pkg/sloop/store/untyped/partition.go:27-30 | Ids of starts before 1970 are their 64-bit two's complements, which do not parse |
| Partitions.StartOfUnique | pkg/sloop/store/untyped/partition.go:24-34 | An instant lies in exactly one aligned hour or day, and that is the partition it is given |
| Partitions.RangeHoldsInstant | pkg/sloop/store/untyped/partition.go:36-61 | The time range read off the id of an instant is an aligned one that holds the instant; an id that is no numeral has none |
| Partitions.StartsBetweenHas | pkg/sloop/store/typed/watchtablegen.go:303-312 | Stepping by one duration lists an aligned start exactly when it lies between the two ends: no partition is skipped, none is added |
| Partitions.EnumerateIds | pkg/sloop/store/typed/watchtablegen.go:159-168 | The loop over string ids terminates and yields the ids of exactly those starts |
| WatchKeys.ParsePrinted | pkg/sloop/store/typed/watchtable.go:47-66 | Reading back a printed key with slash-free fields and a timestamp yields the key |
| Decimal.ParseIntIff | pkg/sloop/store/untyped/partition.go:36-44 | What parses is exactly the numerals of int64 numbers, with or without a sign, even a plus |
| WatchKeys.PrintParsed | pkg/sloop/store/typed/watchtable.go:83-95 | Printing a parsed key yields the original string, if and only if its last part was written the way `%d` writes it |
| WatchKeys.ComparatorPrefix | pkg/sloop/store/typed/watchtable.go:72-95 | What a key with the zero time is a prefix of, for every name: partition, kind and namespace are equal, and the name is equal (or, when empty or ending in a delimiter, a prefix) |
| WatchKeys.KeyOrderIsTimeOrder | pkg/sloop/store/typed/watchtable.go:19-25 | For one resource the string order of stored keys is the order of their timestamps, across partitions, and equal strings are equal keys |
| WatchKeys.SeekPast | pkg/sloop/store/typed/watchtablegen.go:208-209 | With timestamps of equally many digits, a seek past the key of `b` admits exactly the timestamps up to `b` |
| WatchKeys.SeekPastShorter | pkg/sloop/store/typed/watchtablegen.go:208-209 | When the earlier timestamp is one digit shorter the seek finds it exactly when it is at most a tenth of `b`; it misses all others |
| Store.MockIterator.constructor | pkg/sloop/store/untyped/badgerwrap/mock.go:151-162 | The snapshot lists each key of the store once, in ascending or descending order, whatever order the map is visited in |
| Store.MockIterator.Seek | pkg/sloop/store/untyped/badgerwrap/mock.go:218-232 | Forward: everything before the cursor is below the key and nothing after it; reverse: exactly what is strictly below the key lies from the cursor on |
| Store.MockDb.DropPrefix | pkg/sloop/store/untyped/badgerwrap/mock.go:77-88 | Removes exactly the keys with the prefix |
| Store.GreatestBelowAt | pkg/sloop/store/untyped/badgerwrap/mock.go:223-231 | After a reverse seek the cursor is at the greatest key below the bound, if there is one |
| Tables.Table.GetMinKey | pkg/sloop/store/typed/watchtablegen.go:83-94 | Finds the least key of the table, and finds one exactly when the table has a row |
| Tables.Table.GetMaxKey | pkg/sloop/store/typed/watchtablegen.go:96-109 | Finds the greatest key below the sentinel of the table, of whatever table it is |
| Tables.ExtremeRows | pkg/sloop/store/typed/watchtablegen.go:96-120 | On a table with rows the key found is its last row, so that first and last row bound the partitions of all rows |
| Tables.Table.GetMinMaxPartitions | pkg/sloop/store/typed/watchtablegen.go:111-152 | On any store: the partition ids of the first row and of the last key before the sentinel; panics if and only if one of the two does not parse |
| Tables.WatchRowIff | pkg/sloop/store/typed/watchtable.go:47-66 | A key is a row of the watch table, in the partition it names, exactly if it parses as a watch key |
| Tables.MinMaxOfSound | pkg/sloop/store/typed/watchtablegen.go:111-152 | On rows as they are written nothing panics, and the ids are those of the first and the last partition of which the table has a row |
| Tables.Table.GetUniquePartitionList | pkg/sloop/store/typed/watchtablegen.go:154-171 | Lists all partitions from the first to the last one, gaps included; nothing for an empty table |
| Tables.GetMinAndMaxPartition | pkg/sloop/store/typed/tables.go:87-106 | First and last partition over the four tables; fails exactly when they are all empty |
| WatchTable.GetLastMatchingKeyInPartition | pkg/sloop/store/typed/watchtablegen.go:196-225 | Moves both arguments into the partition; stops at the greatest key below the sentinel-extended seek key, or the one before it if that is the key as it was before the move, and accepts it if the comparator is a prefix |
| WatchTable.GreatestIsNewest | pkg/sloop/store/typed/watchtablegen.go:208-224 | If a bound separates the records of a partition at an instant, the greatest key below the bound is the newest record up to that instant, or the partition has none |
| WatchTable.CandidateIsPrevious | pkg/sloop/store/typed/watchtablegen.go:202-224 | One call finds the newest record of its partition strictly before the instant, although the key it gets still carries the partition of the call before |
| WatchTable.GetPreviousKey | pkg/sloop/store/typed/watchtablegen.go:173-194 | Refines a scan of the whole store: returns the record of the resource with the greatest timestamp strictly before the seek time, and fails exactly when there is none |
| WatchTable.RecordOrder | pkg/sloop/store/typed/watchtable.go:19-25 | In a store the writer produced, a resource has at most one record per instant, and records order by time |
| RangeReads.GetPartitionsFromTimeRange | pkg/sloop/store/typed/watchtablegen.go:298-314 | Lists the ids of the partitions from that of the start to that of the end |
| RangeReads.ListedPartitions | pkg/sloop/store/typed/watchtablegen.go:298-314 | A partition is listed if and only if it holds some instant of the range |
| RangeReads.ReadPartition | pkg/sloop/store/typed/watchtablegen.go:252-290 | The walk over one partition gathers all its selected rows and nothing else, or fails on a row that passes the key predicate and cannot be read |
| RangeReads.WalkIsComplete | pkg/sloop/store/typed/watchtablegen.go:257 | A walk that starts at the prefix and stops at the first key without it has met exactly the keys with it |
| RangeReads.RangeRead | pkg/sloop/store/typed/watchtablegen.go:227-295 | On any store: fails exactly when a row under the listed partitions passes the key predicate and cannot be read; otherwise gathers exactly the selected rows |
| RangeReads.UnderSeekString | pkg/sloop/store/typed/watchtablegen.go:243-250 | A row is found under a partition's search string exactly when it lies in that partition and the prefix selects it |
| RangeReads.GatheredIsFilter | pkg/sloop/store/typed/watchtablegen.go:227-295 | On a store the writer produced the result is the filter of the whole table: prefix, partition within the range, both predicates |
| RangeReads.NoBadRows | pkg/sloop/store/typed/watchtablegen.go:264-280 | On such a store a range read never fails |
| History.RemoveDupePayloads | pkg/sloop/queries/respayloadquery.go:141-160 | However entries of equal time get sorted, removing duplicates changes the payload in force at no instant, leaves no two equal neighbours, and only drops entries |
| History.SortSlice | pkg/sloop/queries/respayloadquery.go:142-144 | Sorts by time; of entries with equal times nothing is known but that all are there |
| History.GetPayloadOutputList | pkg/sloop/queries/respayloadquery.go:126-139 | Exactly one entry for each result, in whatever order the map is visited |
| History.GetSeekKey | pkg/sloop/queries/respayloadquery.go:106-112 | The seek key lies in the partition of the start time |
| History.NamespaceIgnoredIff | pkg/sloop/kubeextractor/events.go:130-132 | The namespace parameter is ignored if and only if the kind is Node or Namespace |
| History.CollectedExactly | pkg/sloop/queries/respayloadquery.go:48-81 | Range read and previous key together collect the records of the range and the one just before it, no others |
| History.CollectedSuffices | pkg/sloop/queries/respayloadquery.go:58-81 | The latest collected record up to any instant of the range is the latest stored one |
| History.GetResPayload | pkg/sloop/queries/respayloadquery.go:36-104 | The history is lossless: at every instant of the range the payload in force in the output is that of the latest stored record of the resource, or empty if there is none; every output entry is a stored record with its key, time and payload, of the range or the last before it, and no two neighbours agree |
| History.InForceUnique | pkg/sloop/queries/respayloadquery.go:36-104 | At each instant only one payload is in force, so the previous statement determines the answer |
| WatchUpdates.GetLastWatchKey | pkg/sloop/processing/watch.go:49-67 | Returns the greatest key below the sentinel-extended prefix if the prefix fits it |
| WatchUpdates.LastIsGreatest | pkg/sloop/processing/watch.go:49-67 | That key is the newest record of the resource in the partition, if it has one there |
| WatchUpdates.GetLastKubeWatchResult | pkg/sloop/processing/watch.go:26-45 | Returns the newest record of the resource in the partition of the timestamp |
| WatchUpdates.UpdateKubeWatchTable | pkg/sloop/processing/watch.go:86-112 | Stores the record under the key of its timestamp, unless it is a node whose cleaned payload equals that of the last record (dropped) or a payload cannot be cleaned (failed); keeps records sound and rows in partitions |
| WatchUpdates.GetUidForWatchEntry | pkg/sloop/processing/watch.go:132-148 | The uid of the newest record of the object before now, over all partitions; fails exactly when it has none |
| WatchUpdates.DedupePreservesMeaning | pkg/sloop/processing/watch.go:69-112 | Over any run of time-ordered updates in a partition, dropping minor updates and storing all of them leave the same cleaned payload in force at every instant |
| WatchUpdates.DedupeLeavesNoRepeats | pkg/sloop/processing/watch.go:69-112 | Over any run of node updates at different times, no two neighbouring stored records have the same cleaned payload |
| EventSpread.DiffIsNew | pkg/sloop/processing/eventcount.go:193-255 | Something new is seen only in an event that ends later than the previous one, in a range between the two ends |
| EventSpread.OverlapIsDiscounted | pkg/sloop/processing/eventcount.go:238-254 | Of a partly overlapping earlier event exactly its overlapping share is discounted, in whole events, and never more than there are |
| EventSpread.AdjustClips | pkg/sloop/processing/eventcount.go:258-294 | For distinct timestamps the clipped range is the intersection with the window, between nothing and the whole count is kept, and all of it when the range lies inside |
| EventSpread.AdjustIsFloor | pkg/sloop/processing/eventcount.go:258-294 | Of a range of distinct timestamps that overlaps the window the overlap is kept, with exactly the floor of count times its length over the whole length, in integers |
| EventSpread.InstantsAreLost | pkg/sloop/processing/eventcount.go:273-293 | Inside the window the count survives clipping on every machine, whatever `int(NaN)` is, if and only if the range is longer than an instant |
| EventSpread.DistributeValue | pkg/sloop/processing/eventcount.go:138-151 | One bucket per position, each with its share |
| EventSpread.BucketsConserve | pkg/sloop/processing/eventcount.go:138-151 | The buckets add up to the value if and only if it is not negative or divides evenly |
| EventSpread.BucketsEven | pkg/sloop/processing/eventcount.go:143-149 | Buckets differ by at most one and never increase |
| EventSpread.SpreadOutEvents | pkg/sloop/processing/eventcount.go:155-177 | The loop builds the map of the spread, `SpreadMap`; what that is the next rows say |
| EventSpread.SpreadMapIsSpread | pkg/sloop/processing/eventcount.go:155-177 | That map has exactly the minutes that receive events, each with its share |
| EventSpread.SpreadIsEven | pkg/sloop/processing/eventcount.go:153-177 | The counts of any two minutes, from that of the first instant up to and without that of the last, differ by at most one, earlier minutes first, a missing minute counting 0; no other minute gets any |
| EventSpread.SpreadOfOneMinute | pkg/sloop/processing/eventcount.go:159-177 | A range that rounds to one minute, to two neighbours, or backwards, goes to the minute of its first instant, all of it |
| EventSpread.RoundMinuteIsNear | pkg/sloop/processing/eventcount.go:157-158 | The minute of an instant is a whole minute at most half a minute away, halves going up |
| EventSpread.SpreadConserves | pkg/sloop/processing/eventcount.go:153-177 | Over any stretch of minutes around the range the spread sums to the count, if and only if the count is not negative or all falls into one minute |
| EventSpread.SpreadStaysInside | pkg/sloop/processing/eventcount.go:155-177 | Counts go only to minutes of the window, and to its end only if the whole range rounds to it |
| EventSpread.ClippedStaysInside | pkg/sloop/processing/eventcount.go:155-294 | Clip and spread together, for any range, even one that ends before it starts: no minute outside the window, none later than the range |
| EventCounts.StoreMinutes | pkg/sloop/processing/eventcount.go:92-136 | The result is a function of the map of minutes, independent of the order of visits; on a store without missing parts it always succeeds and leaves none missing, so its nil guard is unreachable and nothing panics; without a uid nothing is stored |
| EventCounts.StoringKeepsTables | pkg/sloop/processing/eventcount.go:108-132 | All rows written are rows of the event table, in partitions |
| EventCounts.CellAfterStoring | pkg/sloop/processing/eventcount.go:123-129 | Each minute's count is added, in 32 bits, to the cell of its object, minute and reason:severity; every other cell keeps its value |
| EventCounts.StoringKeepsOthers | pkg/sloop/processing/eventcount.go:108-134 | Nothing outside the event count table changes |
| EventCounts.EventKeysOfOne | pkg/sloop/store/typed/eventcounttable.go:59-65 | Two objects never share a row |
| EventCounts.ReasonKeysOfOne | pkg/sloop/processing/eventcount.go:92-136 | Without colons in severities no two pairs of reason and severity share a count; the key starts with the reason |
| EventCounts.ToInt32Wraps | pkg/sloop/processing/eventcount.go:123-129 | Counts wrap around: what is stored is in the range of 32 bits and off by a multiple of 2^32 |
| EventRuns.UpdateEventCountTable | pkg/sloop/processing/eventcount.go:26-90 | Composes last record, diff, clip to the available partitions, spread, lookup of a missing uid, and store; fails exactly when a payload does not extract, or there is something to store and no uid; keeps the store sound |
| EventRuns.WindowIffRows | pkg/sloop/store/typed/tables.go:87-106 | A store has a first and a last partition to clip to if and only if one of its tables has a row |
| EventRuns.WindowIsPartitions | pkg/sloop/processing/eventcount.go:258-266 | An instant lies in the window exactly when its partition is later than the first one with a row and no later than the last; if there is one only, when it is that one |
| EventRuns.DroppedIffEmpty | pkg/sloop/processing/eventcount.go:55-58 | An event that brings something new and reports no error is dropped nevertheless, if and only if the store has no row yet |
| EventRuns.FirstEventIsDropped | pkg/sloop/processing/eventcount.go:55-58 | So the first event of all is stored, and never counted |
| EventRuns.StoringFirstCountsNothing | pkg/sloop/processing/processing.go:65-66 | Were the record stored first, it would be its own previous copy and nothing would be counted |
| EventRuns.ContributionIsDiff | pkg/sloop/processing/eventcount.go:38-70 | Each record contributes exactly the range and count that the one before has not reported, clipped: all of it if it starts later, nothing if it ends no later or has no more, the growth if it starts at the same time, and what the overlapping share leaves otherwise |
| EventRuns.RunAddsUp | pkg/sloop/processing/eventcount.go:26-255 | Over any run of records of one event in a partition, however they start, end and count, with anything unrelated stored in between, each record contributes what is new in it, clipped to the partitions there are, and the counts added are the sum of these contributions |
| EventRuns.TotalIffWhole | pkg/sloop/processing/eventcount.go:229-293 | The contributions sum to what the records report, each event once, if each counts in full; on amd64 only then, and to less otherwise |
| EventRuns.OwedBySegments | pkg/sloop/processing/eventcount.go:193-255 | What the records report is the sum of the last counts of the segments, each of which ends where a record starts after the one before, and of what counts fell by within segments: nothing, if each record starts or goes on from the one before |
| EventRuns.RunConserves | pkg/sloop/processing/eventcount.go:26-294 | The counts added sum to what the records report, that is to the last counts of the segments and what counts fell by within them, if the new range of every record is longer than an instant and lies inside the partitions available, or counts nothing; with the `int(NaN)` of amd64 if and only if |
| Ingestion.ProcessRecord | pkg/sloop/processing/processing.go:49-93 | One turn of the loop: counts, watch activity, record, resource summary, each on what the one before left, failed or not; the store stays sound |
| Ingestion.UpdateWatchActivityTable | pkg/sloop/processing/watchactivity.go:21-50 | Writes a row of the activity table, unless for an event or when the metadata of the last record do not extract |
| Ingestion.UpdateResourceSummaryTable | pkg/sloop/processing/resourcesummary.go:24-74 | Writes a row of the summary table, unless for an event, without a uid, or when it is new and has no creation time |
| Ingestion.OwnKeysOfOne | pkg/sloop/store/typed/resourcesummarytable.go:34-71 | The activity and the summary table have one row for each partition, resource and uid |
| Ingestion.Start | pkg/sloop/processing/processing.go:45-95 | Processes all records in order, and keeps the store sound |
| Ingestion.EventIsProcessed | pkg/sloop/processing/processing.go:65-86 | For an event this is counting and then storing it, whether its payload has the uid or it is looked up; without a uid it is only stored |
| Ingestion.UidComesFromMetadata | pkg/sloop/processing/watch.go:132-148 | A missing uid is the one in the metadata of the newest record of the object before the time of processing, or empty if these do not extract |
| Ingestion.AlwaysSound | pkg/sloop/processing/processing.go:45-95 | Every store that any sequence of processed records and removed partitions reaches from the empty store is sound: what queries, counting and cleanup ask of it always holds |
| Ingestion.PodIsDelivered | pkg/sloop/kubeextractor/events.go:59-68 | What is asked of a record holds of ordinary ones: the payload of a Pod extracts to an involved object without any parts |
| Ingestion.OthersDoNotDisturb | pkg/sloop/processing/processing.go:65-93 | Processing a record of something else, unless it is an event that adds to the counts of the same object for the same reason, changes neither the records of a resource nor these counts |
| Ingestion.LoopConserves | pkg/sloop/processing/processing.go:45-95 | Whatever comes out of the channel between the records of an event, other events about the object for other reasons included: when all is processed, what is added is the sum of what its records contribute, and what they report (the last counts of their segments, and what counts fell by within one) if every new range counts in full; on amd64 if and only if |
| Ingestion.LoopAcrossPartitions | pkg/sloop/processing/eventcount.go:24-70 | When the event goes on in another partition, its first record there contributes its whole range and count once more, clipped; if nothing is clipped the total is what the records there report only if nothing was counted before, and if only that record is clipped, if and only if the clip takes off what was |
| ReceivedHistory.RecordIsUpdated | pkg/sloop/processing/processing.go:65-93 | Of all records of resources, processing changes that of the incoming record only: it becomes what the update of the watch table makes of it, judged by what was stored before |
| ReceivedHistory.OwnRowsAreWritten | pkg/sloop/processing/processing.go:74-93 | A row of activity and of the summary is there afterwards exactly if it was before, or is written by what was stored before the record came |
| ReceivedHistory.StoreHoldsLatest | pkg/sloop/processing/processing.go:45-95 | Whatever comes out of the channel, in whatever order: of each resource the store holds at each instant the latest record received up to that time, the last one to come if several have that time |
| ReceivedHistory.HistoryIsWhatCameIn | pkg/sloop/queries/respayloadquery.go:36-104 | From the channel to the query: the payload in force at any instant is that of the latest record received up to then, or empty before the first |
| ReceivedHistory.NodeHistoryIsWhatCameIn | pkg/sloop/processing/watch.go:69-112 | Of a node whose minor updates are dropped and whose records come in time order, over any number of partitions and with anything in between: the payload in force at any instant agrees after cleaning with the latest one received |
| KubeWatcher.KubeWatcherImpl.PullCrdInformers | pkg/sloop/ingress/kubewatcher.go:166-173 | Hands out the map object and starts an empty one |
| KubeWatcher.KubeWatcherImpl.ExistingOrStartNewCrdInformer | pkg/sloop/ingress/kubewatcher.go:175-193 | Adopts the informer out of the caller's map, or starts one; does nothing once stopped |
| KubeWatcher.KubeWatcherImpl.StopUnwantedCrdInformers | pkg/sloop/ingress/kubewatcher.go:212-219 | Closes every stop channel of the map, each once |
| KubeWatcher.KubeWatcherImpl.StartCustomInformers | pkg/sloop/ingress/kubewatcher.go:154-164 | A refresh that nothing interrupts: pull, adopt each listed definition, close the rest |
| KubeWatcher.KubeWatcherImpl.Stop | pkg/sloop/ingress/kubewatcher.go:417-433 | Sets the flag, stops the ticker, closes the channel of the built-in informers and those of all informers of the map; a second call returns early, holding the lock |
| KubeWatcher.KubeWatcherImpl.WriteToOutChan | pkg/sloop/ingress/kubewatcher.go:347-357 | Appends the record to what was sent, unless stopped |
| KubeWatcher.NextKeepsInv | pkg/sloop/ingress/kubewatcher.go:154-219 | Every atomic step of every goroutine keeps each started informer in exactly one place: the map, the hands of the refresh, the hands of `Stop`, or closed |
| KubeWatcher.NeverClosedTwice | pkg/sloop/ingress/kubewatcher.go:212-219 | In every interleaving no stop channel is closed twice, neither of an informer nor that of the built-in ones |
| KubeWatcher.StopClosesEverything | pkg/sloop/ingress/kubewatcher.go:417-433 | In every interleaving, when the refresh and `Stop` have both finished, every informer ever started has been closed, and the built-in ones |
| KubeWatcher.NothingSentAfterStop | pkg/sloop/ingress/kubewatcher.go:347-357 | In every interleaving nothing is sent after the flag is set |
| KubeWatcher.SentIsWritten | pkg/sloop/ingress/kubewatcher.go:347-357 | In every run, what has been sent at any moment is exactly the sequence of the records handed over before the flag was set |
| KubeWatcher.StepsOfRun | pkg/sloop/ingress/kubewatcher.go:154-219 | Every run has its steps, of which the row before speaks |
| KubeWatcher.RefreshReconciles | pkg/sloop/ingress/kubewatcher.go:154-193 | When a refresh ends that `Stop` has not interrupted, the running informers are exactly those of the fetched list, and one that was there before is still the same |
| KubeWatcher.RefreshLeaksOnDuplicates | pkg/sloop/ingress/kubewatcher.go:156-193 | An uninterrupted refresh loses track of an informer that nothing will close, if and only if the list names a definition twice |
| KubeWatcher.RefreshWorkDecreases | pkg/sloop/ingress/kubewatcher.go:154-164 | Once it has pulled the map, every step of a refresh leaves less to do |
| KubeWatcher.StopWorkDecreases | pkg/sloop/ingress/kubewatcher.go:417-433 | Once the flag is set, every step of `Stop` leaves it less to do, and no step of another goroutine more |
| PartitionCounts.GetPartitionsInfo | pkg/sloop/common/partition_utilities.go:61-89 | Counts the keys that parse: in all, per partition, and per table within a partition |
| PartitionCounts.GetSortedPartitionIDs | pkg/sloop/common/partition_utilities.go:46-57 | All partitions, oldest first, each once |
| PartitionCounts.SumIsTotal | pkg/sloop/common/partition_utilities.go:81-83 | The counts of all partitions add up to the total |
| GarbageCollection.GetNumberOfKeysToDelete | pkg/sloop/storemanager/storemanager.go:394-405 | At least the wanted share of the keys and never more than all of them |
| GarbageCollection.GetPartitionsForSize | pkg/sloop/storemanager/storemanager.go:240-253 | Selects the shortest prefix that holds the target; the list index stays in bounds because the target does not exceed the sum |
| GarbageCollection.GetPartitionsToDelete | pkg/sloop/storemanager/storemanager.go:255-295 | The selection is the shortest oldest-first prefix that is enough for the size and after which nothing is too old. Enough: if the disk is over the threshold, the selected keys times the disk size are at least all keys times the excess. The index past the end is read if and only if the time limit is shorter than a partition and all partitions but the last are enough |
| GarbageCollection.TargetIff | pkg/sloop/storemanager/storemanager.go:240-253 | A number of keys reaches the target that ratio and rounding give, if and only if it is enough for the size |
| GarbageCollection.BySizeAlone | pkg/sloop/storemanager/storemanager.go:255-280 | If no partition is too old, no shorter prefix is enough for the size, and below the threshold nothing is selected |
| Cleanup.PrefixIsPartition | pkg/sloop/storemanager/storemanager.go:306-323 | The prefix without a trailing slash takes exactly the rows of one table in one partition |
| Cleanup.TablesSumUp | pkg/sloop/storemanager/storemanager.go:306-338 | The counts of the four tables add up to the count of the partition |
| Cleanup.DeletePartition | pkg/sloop/storemanager/storemanager.go:297-338 | In both modes, by prefixes or key by key: removes exactly the rows of the partition in the four tables, and reports how many they were |
| Cleanup.EndsIffUnblocked | pkg/sloop/storemanager/storemanager.go:306-312 | Deleting a partition key by key ends if and only if before each of its rows come only rows of the partition that are deleted no later |
| Cleanup.CleanupEndsIff | pkg/sloop/storemanager/storemanager.go:185-201 | So does a whole pass, if and only if that holds for each selected partition in its turn |
| Cleanup.WatchRowsAreBlocked | pkg/sloop/store/typed/tables.go:108-110 | Tables are deleted in an order that is not that of their keys: with any event count or summary in the store, no partition with a watch record can be deleted key by key |
| Ingestion.ProcessedIsBlocked | pkg/sloop/storemanager/storemanager.go:306-312 | This is what processing leads to: once a resource with a uid and a creation time is processed, its partition cannot be deleted key by key |
| Cleanup.DoCleanup | pkg/sloop/storemanager/storemanager.go:178-214 | Leaves exactly the rows of the unselected partitions, reports exactly the number of rows removed, which is enough for the size, leaves nothing that is too old, and keeps the store sound |
| Ingestion.CleanupCanRunOff | pkg/sloop/storemanager/storemanager.go:282-289 | With a time limit of zero and space to spare, the cleanup of a store with one record reads past the end of its list |
| KeyDeletion.DeleteKeys | pkg/sloop/common/db_utilities.go:9-27 | Deletes the given keys and counts them |
| KeyDeletion.DeletePasses | pkg/sloop/common/db_utilities.go:36-69 | Any number of turns of the loop, on any store, do to it what `AfterPasses` says |
| KeyDeletion.PassesTakeOut | pkg/sloop/common/db_utilities.go:49-69 | The turns eat the store up from the head of the key order, whole batches of matching keys at a time, and nothing else |
| KeyDeletion.LeadIsLeading | pkg/sloop/common/db_utilities.go:49 | What a turn can reach are the matching keys before which no other key comes |
| KeyDeletion.DeleteKeysWithPrefix | pkg/sloop/common/db_utilities.go:30-71 | If enough matching keys come first in the order it ends, having deleted only matching keys: the target rounded up to whole batches, or all that match |
| KeyDeletion.EndsIffEnoughLead | pkg/sloop/common/db_utilities.go:36-69 | On any store some turn finds the target met if and only if at least as many matching keys as asked for come first in the order |
| KeyDeletion.EarlierKeyBlocks | pkg/sloop/common/db_utilities.go:48-49 | One key before the prefix blocks it: after any number of turns the store is what it was |
| Heatmap.TimeFilterResSumValue | pkg/sloop/queries/timerange.go:183-209 | Keeps what overlaps the query and cuts it to the query |
| Heatmap.AdjustLastSeenTime | pkg/sloop/queries/queryd3heatmap.go:148-164 | Extends a resource that was not deleted to the end of the query if it was last seen within one resync of it |
| Heatmap.UnixIsSecond | pkg/sloop/queries/queryd3heatmap.go:188-193 | Rows show instants as the seconds that they lie in |
| Heatmap.OverlayIsMinute | pkg/sloop/queries/queryd3heatmap.go:277-285 | An instant lies in a minute, as the counting numbers them, if and only if it lies in the overlay of the minute |
| Heatmap.AdjustOverlays | pkg/sloop/queries/queryd3heatmap.go:382-412 | Adjusts every overlay of every row in place, all starts before all ends; overlays that rows share are adjusted by each of them in turn |
| Heatmap.AdjustedIsInside | pkg/sloop/queries/queryd3heatmap.go:375-412 | An adjusted minute is always consistent, and lies inside all rows that show it if and only if it met all of them and each of them starts before any other has ended; then it is exactly what the minute and these rows have in common |
| Heatmap.MissedByOneRow | pkg/sloop/queries/queryd3heatmap.go:375-412 | What becomes of a minute that misses its row: a point, if its far end is less than 60000 seconds from the row, and else the minute as it was |
| Heatmap.InsideIsKept | pkg/sloop/queries/queryd3heatmap.go:382-412 | What was inside all rows that show it stays as it is |
| Heatmap.SharedOverlaysEscape | pkg/sloop/queries/queryd3heatmap.go:309-325 | An input that fails: a minute that meets both rows of two equally named nodes and ends up outside one of them |
| Heatmap.OutputRowValidation | pkg/sloop/queries/queryd3heatmap.go:415-456 | Reports nothing if and only if all rows and overlays are consistent and all overlays inside their rows |
| HeatmapQuery.TimeFilterResSumMap | pkg/sloop/queries/timerange.go:211-222 | Keeps exactly the summaries that overlap the query, cut to it |
| HeatmapQuery.AdjustLastSeenTimeMap | pkg/sloop/queries/queryd3heatmap.go:166-174 | Extends each of them |
| HeatmapQuery.ResSumRowsToD3GanttMap | pkg/sloop/queries/queryd3heatmap.go:215-233 | One row for each resource, showing the newest of its summaries of several partitions, whatever order the map is visited in |
| HeatmapQuery.JoinedIff | pkg/sloop/queries/queryd3heatmap.go:218-219 | Summaries come together exactly if kind, namespace, name and uid agree |
| HeatmapQuery.EventCountsToOverlayMap | pkg/sloop/queries/queryd3heatmap.go:294-307 | For each object the minutes of all its event records, and no others |
| HeatmapQuery.MergeHeatmapWithResources | pkg/sloop/queries/queryd3heatmap.go:309-325 | Each row gets the overlays filed under its reference; equally named nodes get the same ones |
| HeatmapQuery.RefersIff | pkg/sloop/queries/queryd3heatmap.go:309-316 | A row shows the events about its kind, namespace and name with its uid; of a node, with its name in the place of the uid |
| HeatmapQuery.EventHeatMap | pkg/sloop/queries/queryd3heatmap.go:42-92 | A valid row for exactly the resources that overlap the query, in the seconds of the times of their newest summary as cut and extended, with its adjusted minutes; no check fires if and only if every minute with events, and the second after it, meets those times, and they start no later than the second in which any row with the same events ends |

## Left out

- DoCleanup: key by key it requires that nothing blocks the selected partitions, since otherwise it does not end (`Cleanup.CleanupEndsIff`); the final drop of the empty prefix in that mode belongs to the library.
- GetUniquePartitionList: requires rows in partitions, as every reachable store has them (`Ingestion.AlwaysSound`); so does `Tables.GetMinAndMaxPartition`.
- GetResPayload: returns the list of payloads, without its JSON form.
- EventHeatMap: takes the summaries and the minutes of the event records as they are read from the store; their texts and order, watch activity and the JSON form are not modelled.
- DeleteKeysWithPrefix: requires that enough matching keys come first, since otherwise the loop does not end (`KeyDeletion.EndsIffEnoughLead`); `KeyDeletion.DeletePasses` requires nothing.
- StoreMinutes: says nothing about a store that holds an event record with missing parts, where the source stops half way without an error, or panics.
- Adjust: works with real numbers, so the rounding of floating point in the share of the count is not modelled; the same holds for `EventSpread.ComputeEventsDiff` and for the ratio of the garbage collection.
- WriteToOutChan: an output channel that is full and blocks the sender is not modelled.
- Minutes of the event table are numbered; the source uses their Unix time, 60 times the number.
- Protobuf encoding, transactions and their errors, and Badger's internal keys and value log.
- The contents of resource summaries and watch activity: the rows are written, but what they hold is `Other`.
- Time zones, leap seconds and the parsing of times; dates before 1970 only as far as ids are formatted.
- The fetching of definitions, informer bodies, exclusion rules, metrics and logging; the goroutine of the ticker, which never ends.
- Queries for events, summaries, namespaces and kinds, and the computation of the query range: they filter or list what is proved here.
- `GetAllKeysForGivenPartitions`, which serves a debug page, and predicates with state, such as `isKind`.
- Comparators of the other three tables, which lack the closing slash and so match name prefixes too.
