# timeq in Dafny

timeq is a file-backed priority queue with any number of consumers ("forks"). Four layers stack up, and
each one relies on what the layer below guarantees:

1. an append-only **value log** of encoded items, with an iterator that can resynchronise over damage
   (`Items`, `Growth`, `Vlog`, `Heap`);
2. a **batch index** per fork, an ordered map from first key to a FIFO list of locations, mirrored record by
   record in an index file (`IndexSpec`, `Contents`, `BatchIndex`, `Slices`, `Spots`, `Recovery`);
3. the **bucket**: a lazy k-way merge over sorted runs, pops that re-insert what is left of a run and then
   delete the oldest run under its first key, range deletion, forks, and loading from damaged files
   (`ForkSpec`, `PopSpec`, `MergeSpec`, `RangeSpec`, `BucketSpec`, `BucketStore`, `Reopen`, `Crash`);
4. the **bucket set**: splitting by key, reads and deletions across buckets, eviction under a limit of open
   buckets, forks over all buckets, restart, and shovelling one queue into another (`Split`, `Eviction`,
   `QueueSpec`, `TreeSpec`, `PushSpec`, `ReadSpec`, `CutSpec`, `ForksSpec`, `DiskSpec`, `ShovelSpec`,
   `Interrupted`, `BucketSet`, `Shovel`, `RunSpec`, `Runs`).

Objects that the program updates in place are classes here (`Log`, `Iters`, `Index`, `IndexIter`, `Writer`,
`Reader`, `Bucket`, `Buckets`), each with a value: the items of a log, the state of an index (`State`), the
forks over a log (`Value`), the buckets by key (`Store`). Every method says what it does to that value, and
the laws are proved about the values. Iterators over a batch are copied by value in the program and are a
datatype here.

The meaning of an index is `Content(items, m)`: the bag of items its locations stand for. The meaning of a
queue is `Held(store, fork)`: the bag of items of a fork over all buckets. `Abs` is the map from forks to
these bags. `Runs.Do` relates one call to one step of that map, and `Runs.Perform` relates any run of calls,
restarts included, to a run of that map. `Spots` looks at an index more closely, as the positions of the log
it refers to: no stored item is indexed twice (`Once`), and every operation keeps that, so a fork never holds
more than was pushed. This is what the crash theorems rest on.

## What does not hold

Some promises fail on some inputs. The model follows the code; each case comes with a concrete input in
`Counterexamples` and with the exact condition under which the promise is kept.

- **Range deletion deletes the front location of a key**, also when a location in front of the touched one
  was skipped. It removes exactly the range if and only if, under each first key, the touched locations are
  the oldest (`RangeSpec.DeletedExact`, `BucketSpec.DeleteExact`, `CutSpec.CutEnd`).
- **A fork of a drained source does not survive a reload**: its index file is empty, so loading takes it for
  lost and recovers every item ever pushed. A reload is invisible if and only if the file has ever recorded
  a batch or nothing was ever pushed (`Reopen.ReloadTransparent`, `Reopen.ForkPersists`,
  `ForksSpec.ForkFinished`).
- **Opening a queue forgets its forks, and may lose their items.** Opening looks for forks in the first
  bucket, but loads it knowing none, so it finds none. It fails if and only if there are forks, the first
  bucket has stored something and the main queue is drained there: the bucket then looks empty, its log is
  removed, and the index files of the forks are in the way of the directory (`DiskSpec.FindForks`,
  `Reopen.OpenBucket`, `Counterexamples.OpeningFails`, `Counterexamples.ForkNotFound`). If opening succeeds, the
  same happens later to any bucket that the main queue drains (`DiskSpec.ForgottenForksStay`). Without forks a
  restart is invisible (`Runs.Restart`).
- **An interrupted pop can lose items** when batches share a first key: iterators are consumed in heap
  order, deletes are first-in first-out. No prefix of the records loses a stored item if and only if each
  unfinished batch is still in the index when its turn comes (`Crash.PopCrashExact`). This is so whenever the
  fork holds no two items of one key (`Interrupted.QueuePopSafe`). The README of timeq promises no data loss
  without this condition.
- **Recovery of a log that starts with a negative key** inserts a location of length zero under key 0. The
  rebuilt index is well-formed if and only if the log is empty or its first key is not negative
  (`Recovery.FromVlog`). Otherwise reads stop at that location: they reach the runs that start below zero and
  no others, so everything is readable if and only if every run does (`Recovery.RecoveredReach`,
  `BucketStore.Bucket.Peek`). The crash theorems say this for whatever is loaded after a torn record (`Loads`).
- **Recovery behind damage records wrong offsets.** It adds up the sizes of the items it finds and leaves out
  the bytes it skipped. The offsets are right if and only if no damage was skipped before an item that is
  found (`Recovery.OffsetsExact`, `Counterexamples.RecoverBehindDamage`).
- **Two forks can overwrite each other's locations.** Starting a fork copies the index but not its location
  lists. If two forks append different locations under one key to a shared list, the first keeps its own if
  and only if the list had no spare capacity (`Slices.AppendToCopies`).
- **Peeking n items returns up to n items per bucket.** It returns the n smallest if and only if the fork
  has no more than n items or all of them lie in one bucket (`BucketSet.Buckets.Read`, `ReadSpec.ReadEnd`).
- **Fixed-size splitting truncates towards zero**: the bucket key is at or below the key if and only if the
  key is not negative or a multiple of the size (`Split.FixedKeyBelow`); otherwise a range deletion may stop
  at a bucket that holds keys of the range. Shift splitting obeys the law of splits if and only if the shift
  is at most 63 (`Split.ShiftLaw`).
- **The comparator of Push overflows**; it tells the order of two keys if and only if their difference fits
  64 bits (`Split.CompareExact`).
- **A compacted index file ends with a wrong length**: its records carry running numbers of locations. It
  tells the length if and only if the index is empty (`BatchIndex.CompactTells`).
- **The callback of a read is called on an empty fork.** The documentation of `Read` says that it is not. A
  read of a known fork that asks for anything calls it at least once if and only if there are buckets, whether
  this fork or only another one has items in them (`BucketSet.Buckets.Read`, `Counterexamples.EmptyForkIsAsked`).
- **`Len` misses buckets it knows no length of.** As long as what is remembered of a fork is right (`Right`,
  which every operation keeps for the forks there are), `Len` is the number of items if and only if the
  buckets that are not loaded and have no remembered length hold nothing of the fork
  (`BucketSet.Buckets.Len`). A fork that was started while a bucket with items of its source was not loaded is
  such a case (`Counterexamples.OfflineForkNotCounted`). What is remembered of a new fork is right if and only
  if what an earlier fork of that name left behind happens to be (`ForksSpec.NewForkLengths`,
  `Counterexamples.LeftoverLength`).

## Model

| member | source | states |
|---|---|---|
| Items.BigEndianRoundTrip | vlog/vlog.go:129-141 | writing an unsigned number in n big-endian bytes and reading it back gives its value modulo 256^n |
| Items.BigEndianByte | vlog/vlog.go:131-133 | the byte at each place of a written number is that of its place value, the most significant first |
| Items.FromBigEndianPlaces | vlog/vlog.go:224-225 | reading adds up the bytes at their place values |
| Items.FromBigEndianRoundTrip | vlog/vlog.go:224-225 | any bytes are what writing the number they stand for gives |
| Items.EncodedBytes | vlog/vlog.go:129-141 | the bytes of an encoded item: length in four, key in eight in two's complement, each with the most significant byte first, then the blob and 0xFF 0xFF |
| Items.EncodedExample | vlog/vlog.go:129-141 | key 1 and blob "x" are 00 00 00 01, 00 00 00 00 00 00 00 01, 78, FF FF |
| Items.Field32 | index/writer.go:34-35 | a 32-bit field reads back as written if and only if the value is below 2^32 |
| Items.Field64 | index/writer.go:33 | a 64-bit field reads back as written if and only if the value is below 2^64 |
| Items.KeyField | vlog/vlog.go:134 | every signed key survives the conversion to an unsigned field and back |
| Items.DropConcat | vlog/vlog.go:190-198 | an offset past one batch denotes the batches after it |
| Items.EncodedEnd | vlog/vlog.go:118-127 | a non-empty encoded log ends with a non-zero byte, which is what lets the end be found again |
| Growth.NextSizeBounds | vlog/vlog.go:28-59 | the next size is strictly above the size, at most one block of pages above it, and a whole number of blocks |
| Growth.NextSizeTable | vlog/vlog.go:28-59 | a file grows to the next multiple of 8, 16, 32, 64 or 128 pages, with steps at 200 kB, 1, 10 and 100 MB; an empty one gets 8 pages |
| Growth.NextSizeMonotone | vlog/vlog.go:28-59 | growth is monotone, also across the thresholds at which blocks get larger |
| Vlog.RunStable | vlog/vlog.go:143-188 | a location denotes the same items after any number of later pushes |
| Vlog.ImageUnique | vlog/vlog.go:61-116 | two item sequences with the same intact log file are equal: the bytes determine the items |
| Vlog.ParseEncoded | vlog/vlog.go:218-260 | parsing at the start of an encoded item yields that item, whatever follows |
| Vlog.ParseExact | vlog/vlog.go:218-260 | on any bytes, an item is parsed if and only if its header fits, its length is allowed, blob and end marker fit and one marker byte is right; behind the last header nothing is read |
| Vlog.FirstSoundExact | vlog/iter.go:45-61 | a step over any bytes ends at the first position that is not damaged, trying after each damaged one the position behind the next end marker; or at the end of the data |
| Vlog.FirstSoundTried | vlog/iter.go:45-61 | there always is such a chain of positions, and all but the last are damaged |
| Vlog.Log.Open | vlog/vlog.go:61-116 | the data of any file ends with its last non-zero byte; opening an intact file, padding included, recovers its items |
| Vlog.Log.Shrink | vlog/vlog.go:118-127 | finds the end of the data: everything behind it is zero, the byte before it is not |
| Vlog.Log.WriteItem | vlog/vlog.go:129-141 | writes the bytes of one item at the end and nothing else |
| Vlog.Log.WriteItems | vlog/vlog.go:166-175 | all writes of a push stay in bounds and append exactly the encoded batch |
| Vlog.Log.Push | vlog/vlog.go:143-188 | the log gains exactly the batch, old bytes stay, the returned location denotes exactly the batch, and the file grows exactly if NextSize asks for more |
| Vlog.Log.FindNextItem | vlog/vlog.go:200-216 | the first position behind a trailer after the given offset, or the end; always further on |
| Vlog.Log.ReadsBack | vlog/vlog.go:218-260 | at every item boundary of an intact log the stored item is read back |
| Vlog.Log.Next | vlog/iter.go:31-71 | on arbitrary bytes it steps onto the first position that is not damaged and stays on its old item behind the last header; it fails at the first damage, or at the end, as the error mode says; on an intact log it steps onto exactly the next item |
| Heap.RootIsLeast | vlog/heap.go:33-40 | in a heap no iterator comes before the first one |
| Heap.RootDecides | bucket.go:381 | the first iterator is exhausted only if all are; otherwise its key is the smallest of all unfinished ones |
| Heap.ChangedPlace | bucket.go:389 | replacing the root breaks the order at most at the root |
| Heap.Iters.Push | vlog/heap.go:14-17 | adds one iterator, permutes the others and keeps the heap order |
| Heap.Iters.Fix | vlog/heap.go:23-27 | after an arbitrary change at one place the heap order holds again, over the same iterators |
| Heap.Iters.Up | vlog/heap.go:42-52 | moving an element up restores the order, over the same iterators |
| Heap.Iters.Down | vlog/heap.go:54-73 | moving an element down restores the order below, over the same iterators, and tells whether it moved |
| IndexSpec.NormalForm | index/index.go:95-119 | any mix of sets and deletes that the index covers equals all deletes first, then all sets in order: the reason why memory and file may apply them in different orders |
| IndexSpec.GetDeleteAll | index/index.go:103-119 | deleting n times under a key drops its n oldest locations |
| Contents.FifoRemoved | index/index.go:103-119 | deleting once per key of a first-in-first-out selection removes exactly the selected locations |
| Contents.DropFront | index/index.go:148-167 | deleting once per key of the first n locations in reading order leaves exactly the others, in the same order |
| Contents.UnderFlatten | index/index.go:155-181 | reading order lists the locations of each key as the map does |
| Contents.FlattenSorted | index/index.go:155-181 | reading order is ascending in the first keys |
| Contents.ReachFirst | bucket.go:292-302 | in reading order, the locations that a read reaches come first, and the next one, if any, is empty |
| Contents.ContentStable | bucket.go:251-284 | an index over a log means the same after any later push to the log |
| BatchIndex.Index.Set | index/index.go:95-101 | appends the location under its key and adds its length to both counters |
| BatchIndex.Index.Delete | index/index.go:103-119 | removes and returns the oldest location of the key, if there is one; the entry counter grows nevertheless |
| BatchIndex.Index.Copy | index/index.go:140-146 | a fresh index with the same value |
| Slices.AppendToCopies | index/index.go:95-100 | when two forks append to one shared list, the first keeps its location if and only if there was no spare capacity or both append the same; the second always does |
| BatchIndex.Index.Iter | index/index.go:179-181 | an iterator that has all locations in reading order ahead |
| BatchIndex.IndexIter.Next | index/index.go:155-167 | moves to the next location in reading order, and fails only when none is left |
| BatchIndex.ReplayMap | index/index.go:69-93 | replaying records changes the map as the records do one by one, whatever the counters |
| BatchIndex.CountedStep | index/index.go:95-119 | the length counter stays equal to the number of items the index holds |
| BatchIndex.ReplayEntries | index/index.go:99-110 | the entry counter of a replay is zero exactly if no batch was ever set |
| BatchIndex.RecordRoundTrip | index/writer.go:31-38 | a record reads back as written if and only if offset and length fit their fields |
| BatchIndex.RecordsAppend | index/writer.go:31-38 | appending a record to a whole file appends exactly one record |
| BatchIndex.LastTrailerAppend | index/reader.go:86-113 | the trailer read from the end is the one last written if and only if it fits 32 bits |
| BatchIndex.Writer.Push | index/writer.go:31-38 | the file grows by exactly 24 bytes: key, offset, length and total, the most significant byte of each first |
| BatchIndex.Reader.Next | index/reader.go:38-52 | yields the next record; a torn rest is an error, an exact end is not |
| BatchIndex.Load | index/index.go:69-93 | loading yields the replay of all whole records and fails exactly on a torn file |
| BatchIndex.WriteIndex | index/writer.go:56-74 | writes the locations in reading order, numbered from zero |
| BatchIndex.FlattenReplays | index/writer.go:56-74 | replaying the locations of an index in reading order rebuilds it |
| BatchIndex.CompactTrailer | index/writer.go:63-71 | a compacted file ends with the number of locations minus one, always less than the length of the index |
| BatchIndex.CompactTells | index/writer.go:54-74 | a compacted file tells the length of its index if and only if the index is empty |
| Recovery.FromVlog | index/index.go:22-67 | ends on any log; the rebuilt index lists exactly the runs of the items that a scan finds, after an empty location if the first key is negative; it holds each of them once, and is well-formed if and only if nothing was found or the first key is not negative |
| Recovery.FoundIntact | index/index.go:22-67 | on an intact log a scan finds exactly the items stored, each in its place |
| Recovery.OffsetsExact | index/index.go:53-54 | the offsets recorded by recovery are where the items lie if and only if no damage was skipped before one of them; otherwise they are too small |
| Recovery.RunsMaximal | index/index.go:39-47 | the runs of a log are sorted, make up the log in order, and each starts below the item before it, so none can be longer |
| Recovery.RecoveredReach | index/index.go:39-43 | after recovering a log that starts below zero, reads reach exactly the runs that start below zero; so all is readable if and only if every run does |
| Recovery.CloseRun | index/index.go:40-45 | closing a maximal sorted run adds exactly its items to the index |
| Spots.OnceBounded | index/index.go:22-67 | a fork that refers to no stored item twice never holds more than was pushed |
| Spots.OncePush | bucket.go:251-284 | a push indexes only items that no index referred to before |
| Spots.OnceConsume | bucket.go:419-456 | a pop leaves no stored item indexed twice, also if its callback pushed |
| Spots.OnceDelete | bucket.go:524-553 | nor does an exact range deletion |
| ForkSpec.LoggedOk | bucket.go:266-271 | one operation, applied in memory and recorded with the resulting length, keeps file and memory in step |
| ForkSpec.LoggedAllOk | bucket.go:430-450 | any run of such operations does, and appends exactly their records |
| ForkSpec.LoggedAllTrailer | bucket.go:436-450 | after any run of operations the last record tells the length of the index |
| ForkSpec.MirrorReloads | index/index.go:69-93 | loading the file of a fork rebuilds the map and the length it has in memory |
| MergeSpec.Take | bucket.go:381-400 | taking the root of the heap keeps the output sorted and below everything still open, when the next unopened batch does not start earlier |
| MergeSpec.OpenNext | bucket.go:400-410 | opening one batch per step is enough: afterwards no unopened batch starts before the heap minimum |
| MergeSpec.ReadSplit | bucket.go:352-417 | output, what the open iterators still hold and the unopened batches together are the contents of the index |
| MergeSpec.LeftAbove | bucket.go:352-417 | nothing that is left has a smaller key than anything that was read |
| MergeSpec.ReadComplete | bucket.go:381-417 | the loop stops with exactly min(n, length) items |
| PopSpec.PopExact | bucket.go:430-450 | what popSync records turns the opened batches into their rests, also when batches share a first key, rests land under that key, and the callback pushed in between |
| PopSpec.PopRemoves | bucket.go:419-456 | contents before, plus what was pushed, minus exactly the items returned |
| BucketSpec.PopEffect | bucket.go:332-346 | a popping read takes its items from the named fork only, and pushes of its callback reach all forks |
| RangeSpec.CutsSorted | bucket.go:497-511 | the two cuts of a sorted run separate exactly the keys below, in and above the range |
| RangeSpec.TailOk | vlog/iter.go:91-97 | the location of a suffix is valid and denotes exactly that suffix, the current item included |
| RangeSpec.DeletedSound | bucket.go:484-558 | if the touched batches are the oldest under their keys, exactly the range is gone and the count is the number of items removed |
| RangeSpec.DeletedIncomplete | bucket.go:545-546 | otherwise an item of the range survives |
| RangeSpec.DeletedExact | bucket.go:458-561 | the two together: an if-and-only-if for every index and range |
| RangeSpec.SingleBatchesExact | bucket.go:512-516 | a deletion is exact if no two batches start with the same key below the range: so if the range starts at or below every first key, or with one batch per first key |
| RangeSpec.SeparableExact | bucket.go:512-516 | it is exact if the fork holds no two items of the same key below the range |
| RangeSpec.DistinctSingles | index/index.go:95-100 | a fork that holds no two items of one key has one batch per first key |
| RangeSpec.DeleteOrders | bucket.go:524-558 | recording sets before deletes and applying deletes before sets leads to the same index |
| BucketSpec.DeleteExact | bucket.go:458-561 | a deletion in a bucket removes exactly the range from the fork if and only if the touched batches are the oldest; no other fork changes |
| BucketSpec.PushUpkeep | bucket.go:251-284 | after a push the last record of every addressed fork tells its length, and no stored item is indexed twice if none was |
| BucketSpec.ConsumedUpkeep | bucket.go:419-456 | a pop keeps both |
| BucketSpec.DeleteUpkeep | bucket.go:524-553 | an exact range deletion keeps both |
| BucketStore.Bucket.Record | bucket.go:262-271 | applying and recording an operation changes the named fork only and keeps it in step |
| BucketStore.Bucket.Publish | bucket.go:262-281 | all forks take the new batch, or the named one; false only for an unknown fork |
| BucketStore.Bucket.Push | bucket.go:251-284 | the log gains the batch, every addressed fork gains exactly its items, no other fork changes, and all files stay in step |
| BucketStore.Bucket.AddIter | bucket.go:292-302 | opens the batch the index iterator stands on and tells whether it was the last; an empty location opens nothing and the iterator stays on it |
| BucketStore.Bucket.Peek | bucket.go:352-417 | returns exactly the min(n, length) smallest of the items that are reached, in order, and iterators that account for all the rest of them; opens at most one batch per item and one to begin with; a well-formed index is reached as a whole |
| BucketStore.Bucket.PopSync | bucket.go:419-456 | records, for each iterator, its rest and then the end of its batch, in memory and in the file |
| BucketStore.Bucket.Read | bucket.go:304-350 | the callback sees the n smallest items; they leave the named fork if and only if it pops; its push reaches all forks; all files stay in step |
| BucketStore.Bucket.Cut | bucket.go:490-511 | scanning a batch finds the location of the part below the range and of the part above it |
| BucketStore.Bucket.ScanRange | bucket.go:484-541 | collects the touched batches, their remaining parts and the number of items in the range, and records the parts |
| BucketStore.Bucket.DropBatches | bucket.go:544-553 | records the end of every touched batch and drops one location per key |
| BucketStore.Bucket.Delete | bucket.go:458-561 | the fork's index becomes what deletion means, its file gains exactly the records of it, nothing else changes; errors exactly for an inverted range or an unknown fork |
| BucketStore.Bucket.LenIsContent | bucket.go:563-593 | the stored length of a fork is the number of items it holds; all lengths are zero exactly if all forks are empty |
| BucketStore.Bucket.Fork | bucket.go:595-621 | the new fork holds what its source holds, no fork changes, an existing fork is left alone |
| BucketStore.Bucket.RemoveFork | bucket.go:635-648 | removes one fork and nothing else |
| Reopen.LoadIndex | bucket.go:110-128 | a trusted file gives back its index; anything else is rebuilt from what a scan of the log finds, which is every item ever pushed if the log is intact |
| Reopen.ReloadTransparent | bucket.go:110-117 | closing and loading is invisible to a fork if and only if its file has recorded a batch or nothing was ever pushed |
| Reopen.ForkPersists | bucket.go:607-618 | a new fork survives a reload if and only if its source was not empty, or nothing was ever pushed |
| Reopen.LoadOk | bucket.go:110-128 | a persisted fork comes back with the same index and the same length in its last record |
| Reopen.GrownPersists | bucket.go:419-456 | growing index files over the same log stay persisted |
| Reopen.FilesDetermine | bucket.go:130-213 | the files of a bucket determine its log, all its indexes and all its lengths |
| Reopen.OpenBucket | bucket.go:130-213 | an intact, persisted bucket comes back with the same index for every fork; if all forks are empty its log is dropped first, and opening fails if and only if that is so and the index file of an unknown fork is in the way |
| Reopen.CloseFiles | bucket.go:224-237 | the files of a closed bucket hold its value, and the remembered lengths are those of its forks |
| Crash.FifoSafe | bucket.go:430-450 | if the consumed batches are the oldest under their keys in the order they are consumed, no prefix of the records of a pop loses an item |
| Crash.DistinctIsFifo | bucket.go:430-450 | distinct first keys are enough for that |
| Crash.PopCrashExact | bucket.go:430-450 | no prefix of the records of a pop loses a stored item if and only if every unfinished batch is still in the index when its turn comes; then no prefix loses an item, and if items are distinct, only then |
| Crash.FifoInTurn | bucket.go:430-450 | consuming the oldest batch of a key first is enough for that |
| Crash.SingleInTurn | bucket.go:430-450 | one batch per first key is enough for that, for any read and also if the callback pushed |
| Crash.DeleteSafe | bucket.go:524-553 | no prefix of the records of an exact range deletion loses an item the deletion keeps |
| Crash.CutAnywhere | index/reader.go:38-46 | whatever is loaded after the appended records were cut at any byte misses nothing of the final contents, and reads reach all of it unless recovery meets a log with a first key below zero and a run that starts at zero or above |
| Crash.PopCrashSafe | bucket.go:419-456 | CutAnywhere for a pop, if every unfinished batch is still in the index when its turn comes |
| Crash.DeleteCrashSafe | bucket.go:524-553 | CutAnywhere for an exact range deletion |
| Interrupted.DistinctPopSafe | bucket.go:419-456 | a pop of a fork that holds no two items of one key, cut off at any byte, loses nothing, whatever its callback pushed |
| Interrupted.QueuePopSafe | buckets.go:590-634 | the same for every bucket of a queue whose fork holds no two items of one key |
| Split.AndMask | options.go:165-173 | masking the low bits rounds down to a multiple of the power of two, also below zero |
| Split.ShiftLaw | options.go:165-173 | shift splitting is monotone, idempotent and never above the key, on all keys, if and only if the shift is at most 63 |
| Split.ShiftKeyIs | options.go:165-173 | shift splitting rounds down to a multiple of 2^shift for shifts up to 63, and is 0 beyond |
| Split.FixedKeyBelow | options.go:187-189 | fixed-size splitting is at or below the key if and only if the key is not negative or a multiple |
| Split.FixedKeyIs | options.go:179-191 | fixed-size splitting rounds non-negative keys down and negative ones up to a multiple of the size; size zero counts as one |
| Split.FixedLaw | options.go:179-191 | fixed-size splitting obeys the law on keys that are not negative, for every size; on all keys only for size one |
| Split.CompareExact | buckets.go:550-552 | the comparator tells the order of two keys if and only if their difference does not overflow |
| Split.BinsplitExact | buckets.go:525-543 | on a sorted batch the search returns the exact end of the first bucket's run; all later items belong to later buckets |
| Eviction.PivotVisitsAll | buckets.go:466-480 | the alternating sequence around the middle visits every position exactly once and never leaves the tree |
| Eviction.MiddleFirst | buckets.go:466-480 | positions are visited from the middle outwards, of two just as near the lower one first |
| QueueSpec.HeldAt | buckets.go:563-588 | an item of a fork lies in exactly the bucket its key maps to |
| PushSpec.SortFunc | buckets.go:550-552 | sorts by key whenever no two keys are too far apart; the order of equal keys is left open |
| PushSpec.RoundDone | buckets.go:564-585 | one round stores the first run in its bucket for every fork and leaves the rest as it was |
| ReadSpec.PopStep | buckets.go:602-633 | one bucket further, a popping read is complete or has drained all buckets so far, with the output sorted and below everything left |
| ReadSpec.PopEnd | buckets.go:602-633 | after the last bucket everything was read |
| ReadSpec.ReadEnd | buckets.go:599-633 | over all buckets, always popping gives the n smallest items; always peeking gives them if and only if the fork has at most n items or lies in one bucket |
| ReadSpec.ReadCalled | buckets.go:602-633 | one call further, whatever the callback answers, the read goes on, or is over with the result and error that ReadOver states |
| ReadSpec.TakenHeld | buckets.go:602-626 | reading from one bucket takes exactly the popped items from the fork and nothing from any other |
| CutSpec.RemovedEverywhere | buckets.go:651-695 | a range is removed from a fork exactly if it is removed from every bucket |
| CutSpec.OutOfReach | buckets.go:646-664 | a bucket outside the split of the range's ends holds no item of the range |
| CutSpec.CutEnd | buckets.go:636-707 | visiting only the buckets in reach removes exactly the range if and only if the deletion is exact in each of them; the count is then the number of items removed |
| CutSpec.SeparableAllExact | buckets.go:636-707 | the deletion is exact in every bucket if the fork holds no two items of the same key below the range, in particular if the range starts at or below every key of the fork |
| ForksSpec.ForkFinished | buckets.go:709-734 | the new fork holds what its source held, no other fork changes, and it lasts if and only if no loaded bucket that stores anything has a drained source |
| ForksSpec.NewForkLengths | buckets.go:709-734 | what Len knows of a new fork is right if and only if what an earlier fork of that name left behind is; it misses nothing if and only if the source holds nothing in unloaded buckets without such a length |
| ForksSpec.UnforkingEnd | buckets.go:736-770 | the removed fork holds nothing, all others hold what they held |
| BucketSet.Buckets.CloseUnused | buckets.go:445-515 | exactly min(loaded, limit) buckets stay loaded, no bucket is closed while one nearer to the middle of the key range stays, nothing is closed below the limit, contents are untouched, and lengths stay remembered |
| BucketSet.Buckets.CloseBucket | buckets.go:487-511 | unloading a bucket remembers the lengths of its forks |
| BucketSet.Buckets.Load | bucket.go:130-213 | loading a bucket changes nothing a fork can see; a bucket that did not exist is created empty |
| BucketSet.Buckets.ForKey | buckets.go:178-198 | the bucket is loaded and no fork sees a difference in any bucket; exactly min(loaded, limit - 1) others stay open, and all of them if the limit is off or not reached |
| BucketSet.Buckets.Drop | buckets.go:200-228 | removes one bucket with its files and remembered lengths; false if there is none |
| BucketSet.Buckets.PushSorted | buckets.go:563-588 | ends, and every fork gains exactly the batch, each item in the bucket of its key |
| BucketSet.Buckets.Push | buckets.go:545-560 | every fork gains exactly the batch, for unsorted batches too |
| BucketSet.Buckets.Visit | buckets.go:602-632 | the callback sees the smallest items of one bucket; exactly what it takes is gone; without an error the bucket is dropped if and only if no fork has items left in it |
| BucketSet.Buckets.Read | buckets.go:590-634 | popping n returns the min(n, length) smallest items of the fork over all buckets in sorted order, or all of them if n is negative, and removes exactly these; peeking changes nothing and returns these if and only if the fork has at most n items or lies in one bucket; any other callback sees, bucket by bucket, the smallest of the items still wanted, and takes exactly what it popped; buckets that became empty are gone; it reports an error if and only if errors are not tolerated and a call failed or the fork is unknown, and a failed call is then the last |
| BucketSet.Buckets.Seek | buckets.go:651-655 | the first bucket whose key is not below the given one |
| BucketSet.Buckets.CutBucket | buckets.go:666-691 | the range is removed from one bucket if and only if the deletion is exact there |
| BucketSet.Buckets.Delete | buckets.go:636-707 | see CutEnd, for the method; no other fork changes; an error is reported if and only if the range is inverted, or errors are not tolerated and a bucket in reach does not know the fork; otherwise no bucket cut without error stays when no fork has items in it |
| BucketSet.Buckets.Fork | buckets.go:709-734 | fails exactly for the empty name or an unknown source with buckets present; otherwise ForkResult holds |
| BucketSet.Buckets.RemoveFork | buckets.go:736-770 | empties one fork, keeps all others, and drops loaded buckets if and only if no other fork has items in them; buckets that are not loaded stay, with all that is remembered of them |
| BucketSet.Buckets.Len | buckets.go:336-362 | if what is remembered of a fork is right, never more than its number of items, and exactly that if and only if no unloaded bucket without a remembered length holds items of it |
| BucketSet.Buckets.Open | buckets.go:51-125 | over intact files with the given contents, the queue is intact with nothing loaded, and knows its lengths from the last records of files that tell them |
| DiskSpec.OnDiskUnique | buckets.go:51-125 | the files of a queue determine what every fork holds, so there is only one content to give |
| DiskSpec.LoadedExactly | bucket.go:110-128 | loading every bucket from these files gives every fork what it holds if and only if every fork of every bucket is persisted |
| BucketSet.Buckets.Close | buckets.go:327-334 | nothing stays loaded, and the files of all buckets hold log and indexes of the queue as it was |
| BucketSet.Buckets.Clear | buckets.go:316-325 | drops all buckets |
| DiskSpec.FileTellsLength | index/reader.go:86-113 | the last record of a closed fork tells its length |
| Shovel.MoveBucket | buckets.go:372-396 | moving the files of a bucket moves its items and counts them by its last record |
| Shovel.CopyBucket | buckets.go:398-416 | copying a bucket moves all its items and counts them |
| Shovel.Shovel | buckets.go:364-428 | the destination gains exactly what the source held, the source is empty, and the count is the old length, over any mix of moved and copied buckets; a bucket the destination did not have is taken over as it is, and buckets that only the destination has stay as they are |
| Runs.Do | api.go:83-125 | a call, or a restart of a queue without forks, does to the map from forks to bags what its abstract counterpart does, with an allowed result; forks stay persisted if and only if it started no fork that does not last; the limit of open buckets is kept; what is remembered of lengths stays and stays right, over a restart for the main queue if its files tell them; logs gain only what is pushed; no stored item gets indexed twice |
| Runs.WillLast | buckets.go:709-734 | what a caller could check, though the program offers no such call: decides whether a fork started now survives a reload: in every loaded bucket the source holds items or nothing was ever stored |
| Runs.Perform | buckets.go:545-770 | over any run of calls and restarts on the queue: every result is allowed, the queue holds what the map from forks to bags holds, nothing is lost or doubled, the limit of open buckets holds, the length of the main queue stays known; it stops only before a fork that would not last or a restart of a queue with forks, so never if there are no forks and none is started |
| Runs.RunBalanced | buckets.go:545-770 | what a fork holds after a run with all that was popped or deleted from it is what it held before and all that was pushed |
| RunSpec.RunnableNext | buckets.go:545-770 | the hypotheses on a run hold for the rest of it after each operation |
| BucketSet.Buckets.FetchForks | buckets.go:779-809 | the forks found are those the queue knew before, or none if it has no buckets; with nothing loaded it loads the first bucket; looking for them changes nothing a fork can see |
| DiskSpec.FindForks | buckets.go:779-809 | looking for forks on opening finds none; it fails if and only if there are forks and the main queue is drained in a first bucket that has stored something, and then the log of that bucket is gone |
| DiskSpec.ForgottenForksStay | bucket.go:682-704 | as long as forks are not known, removing a bucket removes its log and fails, exactly if there are forks |
| Runs.Restart | buckets.go:51-125 | closing and opening a persisted queue without forks changes nothing users see, keeps the options, and the lengths are known if the files tell them |
| Counterexamples.RangeDeleteKeepsItem | bucket.go:512-516 | batches [1] and [1, 5]: deleting 5..5 keeps item 5 |
| Counterexamples.PopCrashLosesItem | bucket.go:430-450 | two batches that start with key 1, and the iterators that reading one item leaves: a crash after two records of the pop loses item 3 |
| Counterexamples.DrainedForkComesBack | bucket.go:112 | a fork of a drained queue holds all items ever pushed after a reload |
| Counterexamples.RecoverBelowZero | index/index.go:32-45 | recovering a log of the keys -1, 5, 3 gives an index that counts three items, of which a read returns two |
| Counterexamples.RecoverBehindDamage | index/index.go:53-54 | two items, the first with a damaged length: recovery finds the second, which lies at offset 14, and records offset 0 |
| Counterexamples.SharedListOverwritten | index/index.go:95-100 | two forks share a list of three locations; each appends one, and both end up with the second |
| Counterexamples.NegativeKeyAboveBucket | bucket.go:461-466 | with buckets of 10, key -5 falls into bucket 0; a deletion of -9..-1 visits only this bucket, whose key lies above the range, and leaves the item |
| Counterexamples.ComparatorOverflows | buckets.go:550-552 | the smallest key compares as larger than the largest |
| Counterexamples.PeekReturnsTooMany | buckets.go:627 | a queue with two buckets of one item each: peeking one item gives both |
| Counterexamples.EmptyForkIsAsked | api.go:90-93 | a bucket with an item of the main queue and a drained fork: reading the fork calls the callback with nothing |
| Counterexamples.OfflineForkNotCounted | buckets.go:336-362 | a fork of an unloaded bucket with one item holds one item, and no length is known for it |
| Counterexamples.LeftoverLength | buckets.go:736-770 | a fork is removed while its bucket is not loaded and started again: it is empty, and the length 1 of the removed fork is taken for its own |
| Counterexamples.OpeningFails | bucket.go:186-210 | push an item, start a fork, pop from the main queue, close, open: opening fails and the log with the unread item of the fork is gone |
| Counterexamples.ForkNotFound | buckets.go:779-809 | push an item, start a fork, close, open: the fork is not found, and its index file keeps the bucket from being removed |
| Counterexamples.CompactedTooShort | index/writer.go:54-74 | the compacted file of one batch of one item tells the length 0 |

## Hypotheses

- Sizes: a bucket holds fewer than 2^32 items and less than 2^63 bytes (`Representable`, `RoomFor`), blobs
  are at most 64 MiB (`Storable`), and lengths are below 2^32 where a 32-bit field has to tell them
  (`Countable`).
- The split function is monotone, idempotent and not above the key for the keys in use (`SplitLaw`); reads
  and deletions need monotonicity only.
- No two keys of a batch are so far apart that the comparator overflows (`Comparable`).
- Forks survive a reload (`Persistent`) whenever a call may load a bucket. Every operation keeps this except
  starting a fork from a drained source; `Runs.Do` says exactly when (`Lasting`).
- A run (`Runnable`): all its batches together can be stored, every bucket has room for its part of them, and
  no range deletion starts above two items of the same key (`Tellable`).
- No stored item is indexed twice (`Once`) in the crash theorems. An empty queue starts so, recovery gives it,
  and all operations keep it.

## Left out

- Memory mapping, remapping, page faults, fsync and sync modes: a grown log is a larger array that starts with the same bytes and is zero behind them; the page size is a parameter of a log.
- Directories and file names: a closed bucket is its log file and one index file per fork, and removing or moving a directory removes or moves these files. Fork names are arbitrary strings; of their validation only the empty name is refused.
- Errors of the operating system: calls that can only fail because a file operation fails are assumed to succeed. Aborting or continuing after other errors follows the error mode; messages to the logger do not appear.
- BucketSet.Buckets.Read: a callback of a whole-queue read pops, peeks or fails but does not push; pushes from a callback are covered in one bucket (BucketStore.Bucket.Read), where the callback's answer is a function of the items it sees.
- BucketStore.Bucket.Push: the loop over the forks of a bucket visits them in any order, as iteration over a Go map does.
- Runs.Restart: only queues without forks. What a queue with forgotten forks does after a successful opening is left to DiskSpec.ForgottenForksStay; a later fork of the same name finds the old index files. Runs.Perform stops before a restart of a queue with forks.
- Shovel.Shovel: both queues have no forks. The copy is pushed to the destination right after it was popped from the source instead of between reading and popping, so duplicates after a crash in between are not described; a moved bucket stays listed in the source until the source is cleared.
- BucketSet.Buckets.Delete: iteration runs over a snapshot of the keys, which the loop does not change.
- BucketStore.Bucket.ScanRange: the numbers written beside the parts that a range deletion keeps are computed as in the program, but not stated; the records that end the batches follow, and the last of these tells the length (`BucketSpec.DeleteUpkeep`). Loading replays the records and never looks at them.
- PushSpec.SortFunc: the library's sort is represented by an insertion sort with the program's comparator; only sortedness and the bag of items are stated, since the sort is not stable.
- Vlog.Log.Next: the program's iterator keeps the first key only; here it keeps the whole location it was made from, which no operation but the proofs use.
- The ordered tree libraries: replaced by maps whose keys are listed in ascending order.
- Location lists are values: the memory that two indexes share after an index was copied is described by Slices alone, and the results about forks hold as long as no two forks append different locations to a shared list.
- Locks and goroutines: every operation is one step under the lock.
- Order of items with equal keys: not provided by the program.
- The command line, the wrapper API, checks of the split configuration, benchmarks: no state of their own.
