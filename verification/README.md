# Verified models of the hard parts of the library

This Dafny project models the algorithms of the library that are clever where their
specification is simple, and proves them correct for all inputs and all runs:

* **The external sorter** (`generic/sorter`): the in-memory quicksort with unchecked scans and a
  32-slot stack, the radix sort that ping-pongs between two arrays, both parallel sorts with any
  completion order, the two merges, and the governor that drives a list of buckets.
* **The memory pool** (`mem/pool.c`, `mem/pool.h`): three chains of chunks, the growing buffer,
  reallocation of the last block, and the stack of saved states. An address is a chunk and an
  offset.
* **The configuration journal** (`generic/opt/journal.c`, `input.c`, `intr.c`, `mem/list.h`): an
  undo log that is swapped with memory and reversed in place, transactions on top of it, and list
  edits under it.
* **Buffered reading of files** (`generic/opt/fb-file.c`, `fastbuf.c`): a sliding window with
  delayed seeks, back buffer and short reads against the plain file.
* **CRC-32C by slicing** (`crypto/crc.c`) against bit-by-bit division.
* **Two compact algorithms**: the argument exchange of getopt and the index of dirty sections.

Code that works by changing things is modelled by classes, methods and loops; the properties
about whole runs are lemmas and the contracts of the methods that perform the runs. Records are
of any type, compared through an integer key, so equal keys do not mean equal records.

| component | files |
|---|---|
| shared | `Basics.dfy`, `Ordering.dfy`, `Segments.dfy` |
| array sorts | `Quicksort.dfy`, `ParallelQuicksort.dfy`, `HashBits.dfy`, `Positions.dfy`, `RadixSort.dfy`, `ParallelSplit.dfy`, `ParallelRadix.dfy`, `ArraySort.dfy` |
| merges and governor | `Twoway.dfy`, `TwowayUnify.dfy`, `Tournament.dfy`, `Multiway.dfy`, `Unify.dfy`, `InternalUnify.dfy`, `Buckets.dfy`, `Governor.dfy` |
| memory pool | `PoolLayout.dfy`, `Mempool.dfy`, `PoolScript.dfy` |
| configuration | `UndoLog.dfy`, `Journal.dfy`, `ConfRun.dfy`, `ConfHistory.dfy`, `ConfList.dfy`, `Dirty.dfy`, `Getopt.dfy` |
| input and checksums | `FbFile.dfy`, `Crc.dfy`, `CrcTables.dfy` |

## What the proofs found

* Quicksort computes its midpoints as `(l+r)/2` in an `int` (generic/sorter/array-simple.h:93,
  generic/sorter/array.h:88). No input of up to 2^30+4 elements makes the sum overflow, and for
  every greater length the array that is lowest everywhere except in the middle and in the last
  eight places does, in the second partition (`Quicksort.Sort`, `Quicksort.LopsidedArray`).
* With a thread threshold of 0 the parallel quicksort splits even an empty array and reads outside
  of it. Up to 2^30+4 elements, or with a threshold of at most 2^30+5 up to the greatest `int`,
  that is its only failure (`ParallelQuicksort.ThreadedQuicksort`, `ArraySort.Run`).
* `sorter_radix` adds `sorter_add_radix_bits` to the bits it was given without looking at the hash
  bits the bucket has left (generic/sorter/govern.c:288). The split fails exactly when the sum, cut at
  `sorter_max_radix_bits`, exceeds them (`Governor.Sorter.RadixFirst`); `Governor.OvershootExact` says
  for which hash bits there is such a bucket, and `Governor.OvershootExample` and
  `Governor.OvershootRun` show one: 65536 one-byte records with 8 hash bits, the smallest buffer
  and 4 bits added. Without additional bits there is none (`Governor.NoExtraBits`), and a run that
  fails loses no record (`Governor.Sorter.Run`).
* If not even one record fits in the buffer, the presorter reads nothing and reports the end
  (generic/sorter/s-fixint.h:63-66), and the governor drops the bucket: all records are lost
  (`Governor.Sorter.Run`). With the smallest buffer this happens to keys over 2048 bytes that are
  sorted by radix in memory (`Governor.NoRoom`).
* With SORT_DEBUG_NO_PRESORT the two-way strategy asks for the runs of a second input that does not
  exist (generic/sorter/govern.c:156-167), so with room for a record no sort of a nonempty input
  succeeds (`Governor.Sorter.Run`).
* With SORT_UNIFY the presorter looks for equal neighbours without an upper bound
  (generic/sorter/s-fixint.h:99). If the highest key of a bufferful occurs twice, it reads behind the
  records and merges whatever has that key there; the result is right exactly if that never happens
  (`InternalUnify.SortUnified`, `InternalUnify.TwowayUnified`, `InternalUnify.RunsOverExample`).
* `predict_swap` starts counting at the bits of one pass, so it foresees one pass at most
  (`ArraySort.PredictSwap`). The result is still where the flag says.
* The backward branch of `bfd_refill` moves part of the window and then reads all of it again; the
  move is harmless (`FbFile.File.RefillBehind`).
* `crc32_update_by4` and `crc32_update_by8` read behind a buffer exactly when it ends before its
  first aligned word: the length is subtracted without a test (crypto/crc.c:577, crypto/crc.c:615).
  `Crc.ShortBuffer` is the smallest case; `Crc.UpdateBy4` and `Crc.UpdateBy8` state the condition.
* `mp_grow` accepts one byte more than `mp_size_max` when the buffer is already that long, because
  big chunks are rounded up (`Mempool.Pool.Grow`, `Mempool.Pool.GrowPastMax`).
* After a successful `cf_reload` of a file the list of entries is empty, so a later
  `cf_reload(NULL)` loads nothing (`Journal.Context.Reload`).
* A refused load is undone exactly when journalling is on: without it, there is for every memory a
  refused load that changes it (`UndoLog.RestoresExactly`, `UndoLog.RefusalExample`).
* Before any load there is no pool, and `cf_set` with journalling on, as it is by default
  (generic/opt/context.c:20), allocates from a null pool (generic/opt/alloc.c:19-25). A run breaks
  off exactly there (`ConfRun.CrashExactly`); `ConfRun.FirstSetting` is the shortest such run.

## Model

| member | source | states |
|---|---|---|
| `Quicksort.MedianOfThree` | generic/sorter/array-simple.h:91-102 | the three sampled elements end up in order, so that both ends bound the scans that follow |
| `Quicksort.ScanUp` | generic/sorter/array-simple.h:105-106 | the scan without a bounds test stops inside the range at the first key not below the pivot |
| `Quicksort.ScanDown` | generic/sorter/array-simple.h:107-108 | the downward scan stops inside the range at the first key not above the pivot |
| `Quicksort.PartitionRound` | generic/sorter/array-simple.h:103-121 | each round keeps both sides bounded by the pivot and leaves a sentinel for the next scans |
| `Quicksort.Partition` | generic/sorter/array.h:184-223 | a permutation of the range only; both sides are strictly smaller, the left one never exceeds the right one, and at most one element lies between them |
| `Quicksort.DepthBound` | generic/sorter/array-simple.h:77-79 | fewer than b halvings leave anything of a number below 2^b: why pushing the larger side bounds the stack |
| `Quicksort.NextRange` | generic/sorter/array-simple.h:123-158 | pushing the larger oversize side, keeping the only one or popping leaves disjoint pending ranges, with the rest undersize, in at most 32 slots and with fewer elements pending |
| `Quicksort.SplitToThreshold` | generic/sorter/array-simple.h:87-158 | the loop ends with a permutation cut into ordered segments no longer than the threshold, and no midpoint leaves an int up to 2^30+4 elements; above, one does on a lopsided array |
| `Quicksort.LopsidedArray` | generic/sorter/array-simple.h:93-93 | there is a lopsided array of every length, so that bound is exact |
| `Quicksort.UndersizeOrder` | generic/sorter/array-simple.h:165-171 | elements a threshold apart are in order, so the minimum is among the first ASORT_THRESHOLD |
| `Quicksort.Barrier` | generic/sorter/array-simple.h:166-171 | a permutation with a minimum of the whole range in front |
| `Quicksort.Insert` | generic/sorter/array-simple.h:174-184 | the insertion that tests no lower bound extends the sorted prefix and leaves the barrier |
| `Quicksort.Sort` | generic/sorter/array-simple.h:74-185 | the range becomes a sorted permutation of itself and nothing else changes, for every input up to 2^30+4 elements; for every greater length some input makes a midpoint overflow |
| `ParallelQuicksort.HandleWork` | generic/sorter/array.c:127-142 | a completed item leaves its range sorted or cut into strictly smaller ordered parts; it succeeds if the item is at most 2^30+4 long or the threshold at most 2^30+5 |
| `ParallelQuicksort.StepConsistent` | generic/sorter/array.c:154-196 | whichever item completes next, pending ranges stay disjoint, no key left of a range exceeds a key in it and none right of it is below, and everything else is in order |
| `ParallelQuicksort.EmptyQueueSorted` | generic/sorter/array.c:154-196 | a consistent state with an empty queue is a sorted array |
| `ParallelQuicksort.ThreadedQuicksort` | generic/sorter/array.c:154-196 | terminates with a sorted permutation for every order in which items complete, for every length that fits in an int if it is at most 2^30+4 or the threshold at most 2^30+5; fails on an empty array with threshold 0, which is split |
| `HashBits.DigitOrder` | generic/sorter/array.h:227-283 | among hashes that agree above the digit, a smaller digit means a smaller hash, and an equal digit means agreement further down |
| `Positions.PosInjective` | generic/sorter/array.c:259-327 | no two elements are written to the same position |
| `Positions.Origin` | generic/sorter/array.c:259-327 | every position of a bucket is written by some element |
| `Positions.ScatterPerm` | generic/sorter/array.h:256-283 | writing every element to its own position gives a permutation |
| `RadixSort.RadixCount` | generic/sorter/array.h:227-254 | the counters hold how often each digit occurs |
| `RadixSort.BucketStarts` | generic/sorter/array.c:40-47 | the running sums are the bucket starts, and the last is the number of elements |
| `RadixSort.RadixSplit` | generic/sorter/array.h:256-283 | every element lands at the start of its bucket plus the number of equal digits before it; the counters end at the bucket ends |
| `RadixSort.ScatteredBuckets` | generic/sorter/array.h:256-283 | a scattered range is a permutation in which every element lies in the bucket of its digit |
| `RadixSort.BucketFacts` | generic/sorter/array.c:50-65 | a bucket agrees one digit further down, and no key before it exceeds a key from its start on |
| `RadixSort.SortBucket` | generic/sorter/array.c:53-61 | a bucket is sorted into the array the flag selects, with the roles of the arrays swapped in the recursion; it fails at most when a bucket over 2^30+4 elements is left to quicksort |
| `RadixSort.SortBuckets` | generic/sorter/array.c:50-65 | the loop over the buckets leaves the whole range sorted in the selected array, under the same condition |
| `RadixSort.AsortRadix` | generic/sorter/array.c:23-66 | for a monotone hash whose upper bits agree, a sorted permutation ends up in `buffer` or `array` as swapped_output says, and nothing outside the range changes; always up to 2^30+4 elements, and above whenever quicksort gets no longer bucket that overflows |
| `ParallelSplit.Blocks` | generic/sorter/array.c:264-290 | the workers' blocks follow each other and cover the range; the last one takes the remainder |
| `ParallelSplit.ParallelCount` | generic/sorter/array.c:272-301 | in whatever order the workers report, the sums are the digit counts of the range |
| `ParallelSplit.Distribute` | generic/sorter/array.c:303-324 | each worker starts in each bucket behind the elements of earlier blocks |
| `ParallelSplit.ScatterStep` | generic/sorter/array.c:218-226 | a single write of one worker keeps the counters and all earlier writes of every worker |
| `ParallelSplit.ParallelScatter` | generic/sorter/array.c:313-330 | for any interleaving of the workers every element ends up at its own position |
| `ParallelRadix.Finish` | generic/sorter/array.c:228-245 | one ready range is sorted into the array the flag selects, every other range is untouched; always up to 2^30+4 elements |
| `ParallelRadix.RunJobs` | generic/sorter/array.c:247-257 | background jobs completed in any order change only queued ranges, which become sorted or stay queued |
| `ParallelRadix.HandleBucket` | generic/sorter/array.c:330-362 | a bucket is queued, sorted at once or split in parallel; what was done before stays done |
| `ParallelRadix.RsRadix` | generic/sorter/array.c:259-365 | on every level the range ends up sorted in the selected array or queued for it, and terminates as the shift shrinks |
| `ParallelRadix.ThreadedRadixsort` | generic/sorter/array.c:367-397 | for any number of workers and any completion order a sorted permutation ends up in the selected array, unless quicksort overflows on a bucket; always up to 2^30+4 elements |
| `ArraySort.PredictSwap` | generic/sorter/array.c:406-421 | the prediction is a swap exactly when there are enough elements and a pass has enough bits |
| `ArraySort.HashesAgree` | generic/sorter/array.c:423-475 | hashes below 2^hash_bits agree on all higher bits |
| `ArraySort.Run` | generic/sorter/array.c:423-475 | every strategy that succeeds leaves a sorted permutation in the array it names; up to 2^30+4 elements the only failure is the parallel split of an empty array with thread threshold 0, and parallel quicksort goes on to the greatest int if its threshold is at most 2^30+5 |
| `Twoway.RunsAppend` | generic/sorter/s-twoway.h:44-58 | a record continues the last run or starts a new one |
| `Twoway.OneRun` | generic/sorter/s-twoway.h:44-66 | a sequence has at most one run exactly when all its keys rise, strictly or not as LESS says |
| `Twoway.OneRunSorted` | generic/sorter/s-twoway.h:35-102 | a sequence has at most one run exactly when it is sorted |
| `Twoway.Emit` | generic/sorter/s-twoway.h:44-66 | a record that does not go on rising opens a new run in the other file; otherwise the run goes on |
| `Twoway.TakeKeeps` | generic/sorter/s-twoway.h:35-102 | taking the smaller head never lets written and waiting runs together exceed the larger input |
| `Twoway.Merge` | generic/sorter/s-twoway.h:10-103 | nothing is lost; at most max(R1,R2) runs are written, alternately, so the files get the rounded-up and rounded-down halves |
| `Twoway.BothKeep` | generic/sorter/s-twoway.h:69-83 | taking two equal heads at once keeps that bound |
| `TwowayUnify.UnifyRound` | generic/sorter/s-twoway.h:35-97 | one round with unification writes the smaller head, or both equal heads as one record, and keeps every invariant |
| `TwowayUnify.Take` | generic/sorter/s-twoway.h:69-97 | the record taken has one key and holds exactly the original records that were read; it is the smaller head, or both heads if they are equal |
| `TwowayUnify.RoundKeeps` | generic/sorter/s-twoway.h:35-97 | a round with unification never lets written and waiting strict runs together exceed the larger input |
| `TwowayUnify.MergeUnified` | generic/sorter/s-twoway.h:10-103 | with unification no original record is lost, records are made of equal keys, and at most max(R1,R2) strictly rising runs are written; two single runs become one without repeated keys |
| `TwowayUnify.UnifyPasses` | generic/sorter/govern.c:162-196 | repeated passes leave one strictly rising run with every original record, after at most one pass more than the rounded-up logarithm of the larger run count |
| `TwowayUnify.SingleRun` | generic/sorter/s-twoway.h:44-66 | at most one strict run means exactly that keys rise strictly |
| `TwowayUnify.GroupComplete` | generic/sorter/s-twoway.h:69-83 | in a strictly rising run the record of a key holds every original record with that key |
| `Tournament.UpdateTree` | generic/sorter/s-multiway.h:24-53 | after a change of one leaf the walk to the root puts every vertex in order |
| `Tournament.LeafChange` | generic/sorter/s-multiway.h:55-59 | changing a leaf disturbs its ancestors only |
| `Tournament.SetLeaf` | generic/sorter/s-multiway.h:55-59 | the tree is in order again, with just this leaf opened or closed |
| `Tournament.RootKnows` | generic/sorter/s-multiway.h:24-53 | the root names the lowest-numbered live stream with the lowest key, and its flag says exactly whether another live stream has that key |
| `Multiway.Load` | generic/sorter/s-multiway.h:61-83 | the tree starts with the first key of every stream that has one |
| `Multiway.HalfwayStep` | generic/sorter/s-multiway.h:129-148 | writing the head of the named stream keeps the output sorted and stable |
| `Multiway.Merge` | generic/sorter/s-multiway.h:129-148 | the merge of sorted streams is sorted, loses nothing, and keeps records with equal keys in stream order |
| `Unify.Collect` | generic/sorter/s-multiway.h:104-117 | the group is made of the heads of all holders of the lowest key, in stream order |
| `Unify.Reload` | generic/sorter/s-multiway.h:119-127 | exactly the holders move on and return to the tree if they have more |
| `Unify.MergeUnify` | generic/sorter/s-multiway.h:85-127 | for strictly increasing streams every key is written once, merged from all its holders, in increasing order |
| `InternalUnify.WriteUnified` | generic/sorter/s-fixint.h:87-110 | the sorted buffer is cut into one record for each key; if its highest key occurs twice, what follows in memory with that key is taken too, and the scan leaves the buffer exactly if nothing else follows |
| `InternalUnify.RunsOverPerm` | generic/sorter/s-fixint.h:87-110 | whether the scan runs over depends on the records and not on their order |
| `InternalUnify.RunsOverSorted` | generic/sorter/s-fixint.h:98-103 | after sorting it runs over exactly if the last two keys are equal and so is the one behind, or there is none |
| `InternalUnify.RunsOverExample` | generic/sorter/s-fixint.h:98-103 | a stale third record with the key of two is written with them |
| `InternalUnify.SortUnified` | generic/sorter/s-fixint.h:54-120 | no record is lost and there is one for each key; the result holds just the input exactly unless the scan runs over |
| `InternalUnify.Bufferful` | generic/sorter/s-fixint.h:54-120 | one call takes the next records that fit as one strict run |
| `InternalUnify.PresortUnified` | generic/sorter/govern.c:131-155 | bufferfuls alternate between two inputs with bounded strict runs; they hold just the input exactly if no bufferful runs over |
| `InternalUnify.TwowayUnified` | generic/sorter/govern.c:123-196 | the two-way strategy with unification writes one record for each key, in rising order, with every original record; and nothing else exactly if no bufferful runs over |
| `Buckets.ReplaceGoverned` | generic/sorter/govern.c:78-96 | replacing the first waiting bucket by rising buckets with the same records keeps the invariant of the list |
| `Buckets.AppendGoverned` | generic/sorter/govern.c:98-121 | appending the first waiting bucket, sorted, to the final one keeps the invariant of the list |
| `Governor.Internal` | generic/sorter/s-fixint.h:54-120 | the chunk is a sorted permutation of the first records that fit; the flag says whether there may be more; with no room for a record it is empty and nothing more is announced |
| `Governor.NoRoom` | generic/sorter/s-fixint.h:44-52 | with the smallest buffer and a workspace of the size of the keys, no key fits exactly if it is longer than 2048 bytes |
| `Governor.PresortTwo` | generic/sorter/govern.c:131-155 | chunks alternate between two buckets, whose run counts differ by at most one, sum up to the number of chunks and bound their maximal runs |
| `Governor.MergePasses` | generic/sorter/govern.c:162-196 | one sorted run with all records is left after at most one pass more than the rounded-up logarithm of the larger run count; two single runs are merged at once into the output if joining is allowed |
| `Basics.LogUpLeast` | generic/sorter/govern.c:162-196 | that logarithm is the least k with n <= 2^k |
| `Governor.TwowayData` | generic/sorter/govern.c:123-196 | the two-way strategy leaves a sorted permutation, in the output only if joining is allowed, and nothing if no record fits in the buffer; it fails exactly if presorting is switched off |
| `Governor.PresortParts` | generic/sorter/govern.c:213-231 | the parts are sorted, not empty, and as many as chunks; only a single chunk that leaves room goes straight to the output |
| `Governor.MergeParts` | generic/sorter/govern.c:242-281 | merging up to 2^bits parts at a time ends with one sorted part that has all records |
| `Governor.MultiwayData` | generic/sorter/govern.c:198-282 | the multi-way strategy leaves a sorted permutation, or nothing if no record fits in the buffer; it is joined exactly if that is allowed and the records are not just one full buffer |
| `Governor.SplitByDigit` | generic/sorter/s-radix.h:12-30 | each output holds, in order, exactly the records with its digit |
| `Governor.SelectRising` | generic/sorter/govern.c:284-321 | the outputs of a split are rising and agree on more hash bits |
| `Governor.CountBits` | generic/sorter/govern.c:336-340 | the loop finds the least shift that makes the size fit in memory |
| `Governor.NeedsIs` | generic/sorter/govern.c:336-340 | the bits needed are the least shift that makes the size fit in memory |
| `Governor.ChoiceExact` | generic/sorter/govern.c:342-393 | dropped if empty, joined if sorted; else the two-way strategy exactly if it fits or can be reduced in no other way; a radix split, by the least of needed bits, hash bits and maximum, exactly if it is allowed and not outdone by a multi-way merge that alone reduces everything; a multi-way merge in all other cases |
| `Governor.NoExtraBits` | generic/sorter/govern.c:284-304 | without additional bits no split takes more hash bits than there are |
| `Governor.OvershootExact` | generic/sorter/govern.c:287-304 | with h hash bits left, unsorted buckets of some size overshoot exactly when bits are added, h suffices for a split, and the configuration allows more than h bits |
| `Governor.OvershootExample` | generic/sorter/govern.c:287-304 | 65536 one-byte records with the smallest buffer, 8 hash bits and 4 bits added overshoot: they need 6 bits and take 10 |
| `Governor.OvershootRun` | generic/sorter/govern.c:397-441 | the sort of these records fails in its first step, with the records still waiting |
| `Governor.Sorter.constructor` | generic/sorter/govern.c:405-426 | the source and the output bucket satisfy the invariant |
| `Governor.Sorter.JoinFirst` | generic/sorter/govern.c:98-121 | the records of a sorted bucket follow those of the final bucket, or it becomes the final one if that has no file; the list gets lighter |
| `Governor.Sorter.TwowayFirst` | generic/sorter/govern.c:123-196 | succeeds exactly when presorting is on; then the sorted records are at the end of the final bucket or in the place of the first waiting one, the invariant is kept and the list gets lighter |
| `Governor.Sorter.MultiwayFirst` | generic/sorter/govern.c:198-282 | the same for the multi-way merge, which keeps no empty bucket |
| `Governor.Sorter.RadixFirst` | generic/sorter/govern.c:284-321 | succeeds exactly when the bits taken do not exceed the hash bits left; then 2^bits buckets take the place of the first waiting one, each with the records of its digit in order and with so many hash bits less; the invariant is kept and the list gets lighter |
| `Governor.Sorter.Decide` | generic/sorter/govern.c:323-395 | one step turns the list into the one that size, memory, hash bits and configuration call for, keeps the invariant and makes the list lighter, exactly unless it overshoots the hash bits or needs the presorting that is switched off |
| `Governor.Sorter.Run` | generic/sorter/govern.c:397-441 | each list follows from the one before by such a step; terminates with the old output followed by a sorted permutation of the input, or by nothing if no record fits in the buffer; or fails, with the invariant intact, in front of a bucket that overshoots or needs the presorting that is switched off; cannot fail with presorting and without additional radix bits, and without presorting fails whenever there is a record and room for one |
| `Governor.RangeBits` | generic/sorter/sorter.h:274-279 | the number of hash bits is the least that holds the range |
| `Governor.SortIntegers` | generic/sorter/sorter.h:271-286 | integer keys in the declared range are sorted behind what the output held, or all lost if none fits in the buffer, or a bucket on which a step fails is left; the lists on the way start with the least hash bits for the range |
| `PoolLayout.AddSmall` | mem/pool.c:206-217 | a chunk put in front of the small chain holds no live block and disturbs none |
| `PoolLayout.AddBig` | mem/pool.c:218-225 | likewise for a big chunk, which no saved state refers to |
| `PoolLayout.TakeSmall` | mem/pool.h:157-180 | carving the start of the free end keeps blocks disjoint and saved states intact |
| `PoolLayout.Reopen` | mem/pool.h:357-365 | giving the last block back is safe when no saved state covers it; a big block then has its chunk to itself |
| `PoolLayout.DropBig` | mem/pool.c:287-298 | the chunk of an open big buffer may go away |
| `PoolLayout.Restore` | mem/pool.c:332-350 | with the chains cut back, the saved state, its blocks and all older states are valid again |
| `PoolScript.SafeLayout` | mem/pool.c:142-230 | in every valid state each chunk is in one chain, once, and each byte of a live block lies before the trailer, outside the free ends and the pool structure, in no other live block |
| `Mempool.Pool.constructor` | mem/pool.c:100-120 | a new pool is valid; its structure is in its only chunk, the rest of which is free |
| `Mempool.Pool.NewSmall` | mem/pool.c:206-217 | the first small chunk is an unused or new one, all free; every live block keeps its bytes |
| `Mempool.Pool.NewBig` | mem/pool.c:218-225 | the first big chunk is new and all free; every live block keeps its bytes |
| `Mempool.Pool.AllocInternal` | mem/pool.c:202-230 | refuses exactly sizes above the maximum; otherwise one new block at the start of the first unused chunk or a new small one, or of a new big chunk above the threshold; everything else kept |
| `Mempool.Pool.Alloc` | mem/pool.h:157-166 | one new aligned block of the size asked for, from the free end if it fits, else from an added chunk; all live blocks keep place and bytes |
| `Mempool.Pool.AllocNoalign` | mem/pool.h:171-180 | the same without alignment |
| `Mempool.Pool.Start` | mem/pool.h:234-258 | opens a buffer of at least the size asked for, aligned if asked, at the free end if it fits, else in a chunk added for it |
| `Mempool.Pool.End` | mem/pool.h:325-331 | the part kept becomes a live block at the start of the buffer |
| `Mempool.Pool.Open` | mem/pool.h:357-365 | the last block, if younger than the last push or pop, is the buffer again, with its size |
| `Mempool.Pool.GrowBig` | mem/pool.c:287-298 | the reallocated buffer starts with the old bytes and has the amortised length: the size asked for or twice the old one, up to the maximum, aligned |
| `Mempool.Pool.GrowPastMax` | mem/pool.c:287-298 | a big buffer grown to the maximum is one byte longer, and mp_grow accepts that length |
| `Mempool.Pool.GrowInternal` | mem/pool.c:272-299 | the buffer moves to a chunk added for it, or to a bigger one that replaces its own in the big chain; it keeps its bytes and all live blocks keep theirs |
| `Mempool.Pool.Grow` | mem/pool.h:290-294 | the buffer has the size asked for and the old bytes, in place if it fits; refused exactly above both the maximum and the present length |
| `Mempool.Pool.Realloc` | mem/pool.h:389-396 | the block has the new size, its first min(old,new) bytes and its alignment, and its place if it fits; all others are untouched; refused exactly above both the maximum and the room there is |
| `Mempool.Pool.Push` | mem/pool.c:352-360 | the state is remembered and has an aligned block of its own, from the free end if it fits; nothing moves |
| `Mempool.Pool.FreeChain` | mem/pool.c:122-140 | every chunk of the chain is freed, each while it is still allocated |
| `Mempool.Pool.Recycle` | mem/pool.c:337-341 | the small chunks above the saved head, and no others, move to the unused chain |
| `Mempool.Pool.Release` | mem/pool.c:343-346 | the big chunks above the saved head, and no others, are freed, each once |
| `Mempool.Pool.Restore` | mem/pool.c:332-350 | any remembered state comes back exactly, with the contents of its blocks |
| `Mempool.Pool.Pop` | mem/pool.c:362-367 | the newest remembered state comes back exactly |
| `Mempool.Pool.Flush` | mem/pool.c:151-170 | only the home chunk stays in use; small chunks are kept, big ones freed, saved states forgotten |
| `Mempool.Pool.Delete` | mem/pool.c:142-149 | every chunk is freed, each once |
| `PoolScript.InScope` | mem/pool.c:272-367 | runs the program between a push and a pop exactly unless an operation in it dies, and always if no size exceeds the maximum; whatever it does, the pop brings back exactly the blocks, contents, free space and saved states; chunks left over are unused small ones |
| `PoolScript.Step` | mem/pool.h:157-396 | an operation dies exactly if it asks for more than the maximum, except for a buffer that is that long already; else the new last block has its size, place and alignment, the resized one its first bytes, the written one its bytes, and all others are untouched |
| `PoolScript.ModestCompletes` | mem/pool.c:202-299 | no program with sizes up to the maximum dies |
| `PoolScript.Run` | mem/pool.c:202-367 | any well-nested program runs through exactly unless an operation dies, and always if no size exceeds the maximum; the world after each operation is the one it is specified to leave; the pool stays valid and protected blocks keep their contents |
| `UndoLog.SwapBack` | generic/opt/journal.c:54-72 | swapping back performs the same swaps in reverse order |
| `UndoLog.SwapTwice` | generic/opt/journal.c:54-72 | swapping twice restores memory and log, for any length and any overlaps |
| `UndoLog.UndoOldest` | generic/opt/journal.c:54-72 | undoing gives a covered word the value of its oldest copy, its state before the first journaled write |
| `UndoLog.UndoOutside` | generic/opt/journal.c:54-72 | undoing leaves uncovered words alone |
| `UndoLog.UndoJournaled` | generic/opt/journal.c:40-52 | journaling a block does not change what undoing gives |
| `UndoLog.UndoStore` | generic/opt/journal.c:40-52 | writing a journaled word, or a new one, does not change what undoing gives for older words |
| `UndoLog.UndoConcat` | generic/opt/journal.c:85-103 | undoing a new journal and then the old one is undoing the joined journal |
| `UndoLog.SwapBelow` | generic/opt/journal.c:54-72 | memories that agree where a log reaches swap alike |
| `UndoLog.DoneUndo` | generic/opt/journal.c:40-72 | disciplined loads never change what undoing their journal gives for older words |
| `UndoLog.DoneConcat` | generic/opt/input.c:378-397 | memory and journal of acts in two parts are those of the parts one after the other |
| `UndoLog.RefusalRestores` | generic/opt/input.c:410-423 | a journaled load that is refused leaves older memory as it was |
| `UndoLog.RestoresExactly` | generic/opt/journal.c:105-118 | every refused load restores memory exactly when journalling is on |
| `UndoLog.RefusalExample` | generic/opt/journal.c:105-118 | one word set to 7 by a refused load: 7 without journalling, unchanged with it |
| `Journal.Context.JournalBlock` | generic/opt/journal.c:40-52 | a copy of the block becomes the newest item, in the current pool, if journalling is on |
| `Journal.Context.Exchange` | generic/opt/journal.c:64-69 | the words of one item and of memory change places |
| `Journal.Context.Swap` | generic/opt/journal.c:54-72 | memory and journal change places and the linked list is reversed in place |
| `Journal.Context.NewTransaction` | generic/opt/journal.c:74-83 | the journal starts empty; the old one is handed out whole |
| `Journal.Context.Append` | generic/opt/journal.c:96-102 | the old journal follows the new one |
| `Journal.Context.Commit` | generic/opt/journal.c:85-103 | the journals are joined and a new pool is remembered |
| `Journal.Context.Rollback` | generic/opt/journal.c:105-118 | with journalling on, memory is undone, the old journal is back and the new pool is gone; otherwise nothing happens |
| `Journal.Context.DeleteOld` | generic/opt/journal.c:120-129 | every old pool is deleted, each once |
| `Journal.Context.Transact` | generic/opt/input.c:410-437 | the transaction of a load or setting: memory is exactly what the acts make of it, undone if refused and journaled; every journal item lies in a pool that exists |
| `Journal.Context.Load` | generic/opt/input.c:410-423 | memory, journal, entries and pools are exactly those of the acts if accepted; if refused, older memory, journal, entries and pools are as before with journalling, and memory is what the load made of it without |
| `Journal.Context.Set` | generic/opt/input.c:425-437 | the same for a setting; it crashes exactly when it allocates and there is no pool |
| `Journal.Context.LoadAgain` | generic/opt/input.c:386-394 | entries are loaded up to the first that fails, and memory and journal are those of all acts so far; then the same entries are remembered |
| `Journal.Context.TryLoads` | generic/opt/input.c:378-397 | memory and journal are those of all acts of the file or the old entries up to the first that fails, and of the closing commit |
| `Journal.Context.Reload` | generic/opt/input.c:368-408 | undo, try, redo: an accepted reload leaves memory before the configuration with all its acts, the journal they write and one pool; a refused one restores memory, journal, entries and pools; undoing gives what it gave |
| `ConfRun.Step` | generic/opt/input.c:368-437 | one command, accepted or refused, ends as judged from memory, entries and pool, and leaves exactly the memory, journal, entries and pool of that outcome, with and without journalling; undoing gives what it gave |
| `ConfRun.Run` | generic/opt/input.c:368-437 | over any run of loads, settings and reloads, outcomes, memory, journal, entries and pool are those of the commands taken one after the other, with and without journalling; with it, undoing the journal gives the memory before configuration |
| `ConfRun.PoolExactly` | generic/opt/input.c:368-437 | with journalling there is a pool after a run exactly when there was one or a load or reload has been accepted |
| `ConfRun.CrashExactly` | generic/opt/input.c:425-437 | with journalling a run breaks off exactly at a setting that allocates when there is no pool and nothing has been loaded |
| `ConfRun.FirstSetting` | generic/opt/input.c:425-437 | a setting as the first command crashes |
| `ConfHistory.AcceptedAt` | generic/opt/input.c:368-437 | a word after an accepted command holds the last value its acts store in it, else what it held, or held before the configuration if the command is a reload |
| `ConfHistory.RefusedAt` | generic/opt/input.c:368-437 | a refused command leaves each older word alone with journalling, and keeps its stores without |
| `ConfHistory.WordsTold` | generic/opt/input.c:368-437 | each word after a run is the value told by the outcomes alone, from any state |
| `ConfHistory.Configured` | generic/opt/input.c:368-437 | after a run from an empty journal each word is what the last accepted command that stores in it stored since the last accepted reload, else as before the configuration |
| `ConfHistory.ValueStored` | generic/opt/input.c:368-437 | if the k-th command counts and no later one stores in the word or is a reload, the word holds the last value the k-th stored, or the one before the configuration if that is a reload that stored none |
| `ConfHistory.ValueStart` | generic/opt/input.c:368-437 | a word that no command touches is as it was |
| `ConfHistory.EntriesTold` | generic/opt/input.c:358-366 | with journalling the entries are told by the outcomes alone; without, nothing is remembered |
| `ConfHistory.ListedExactly` | generic/opt/input.c:358-366 | the entries are exactly those of the accepted loads and settings since the last accepted reload from a file, in their order |
| `ConfList.InsertRing` | mem/list.h:107-125 | an insertion keeps the circular list well formed |
| `ConfList.RemoveRing` | mem/list.h:139-146 | a removal keeps the circular list well formed |
| `ConfList.InitRing` | mem/list.h:70-75 | an initialised list is well formed and empty |
| `ConfList.AddToList` | generic/opt/intr.c:167-196 | the edited list is the expected one and well formed, and every older word it changes was journaled first |
| `ConfList.Clear` | generic/opt/intr.c:321-323 | the cleared list is well formed and its head was journaled first |
| `ConfList.Walk` | generic/opt/intr.c:167-196 | following links from the head arrives at the node that many places round the list |
| `ConfList.EditList` | generic/opt/intr.c:167-196 | after any sequence of edits and clears the list is well formed and has exactly the nodes, in the order, that the edits make one after the other; what undoing gives is kept |
| `ConfList.TryEdits` | generic/opt/intr.c:167-196 | rolling any sequence of edits back restores every link that existed before |
| `FbFile.File.SkipAhead` | generic/opt/fb-file.c:52-67 | short reads skip the bytes asked for, or stop at the end of the file with the true position |
| `FbFile.File.KeepBack` | generic/opt/fb-file.c:68-80 | the kept end of the window is in place before the bytes to be read |
| `FbFile.File.FillFrom` | generic/opt/fb-file.c:119-148 | for all short reads: the window agrees with the file, the position is kept, and there is a byte exactly before the end of the file |
| `FbFile.File.RefillBehind` | generic/opt/fb-file.c:82-118 | the same for seeks backwards |
| `FbFile.File.Refill` | generic/opt/fb-file.c:31-148 | every branch keeps the logical position and the window, and returns nothing exactly at the end of the file |
| `FbFile.File.Getc` | generic/opt/fastbuf.c:151-158 | the byte of the file at the logical position, or -1 at its end |
| `FbFile.File.AtEof` | generic/opt/fastbuf.c:169-172 | says exactly whether the logical position is at the end |
| `FbFile.File.Read` | generic/opt/fastbuf.c:182-208 | the bytes of the file from the logical position, fewer only at its end |
| `FbFile.File.SetPos` | generic/opt/fastbuf.c:116-128 | the logical position is the one asked for and the window stays valid |
| `FbFile.File.SeekEnd` | generic/opt/fb-file.c:184-190 | the logical position counts from the end and the window is empty |
| `FbFile.ServeAll` | generic/opt/fb-file.c:31-148 | any interleaving of requests gets the answers of the plain file |
| `Crc.PolynomialEntry` | crypto/crc.c:47-47 | entry 128 of the first table is 82F63B78, the reflected polynomial of CRC-32C |
| `CrcTables.Table0` | crypto/crc.c:13-79 | the entries of table_il8_o32 at the powers of two |
| `CrcTables.Table1` | crypto/crc.c:81-147 | the entries of table_il8_o40 at the powers of two |
| `CrcTables.Table2` | crypto/crc.c:149-215 | the entries of table_il8_o48 at the powers of two |
| `CrcTables.Table3` | crypto/crc.c:217-283 | the entries of table_il8_o56 at the powers of two |
| `CrcTables.Table4` | crypto/crc.c:285-351 | the entries of table_il8_o64 at the powers of two |
| `CrcTables.Table5` | crypto/crc.c:353-419 | the entries of table_il8_o72 at the powers of two |
| `CrcTables.Table6` | crypto/crc.c:421-487 | the entries of table_il8_o80 at the powers of two |
| `CrcTables.Table7` | crypto/crc.c:489-555 | the entries of table_il8_o88 at the powers of two |
| `CrcTables.TableLinear` | crypto/crc.c:13-555 | all other entries are sums of these |
| `CrcTables.CheckValue` | crypto/crc.c:774-782 | the digits 1 to 9 give the published check value E3069283 |
| `Crc.BitsLinear` | crypto/crc.c:557-649 | division is linear: a sum divides out like its parts |
| `Crc.TableStep` | crypto/crc.c:561-562 | eight bits of division are one table entry and a shift |
| `Crc.Slices` | crypto/crc.c:586-593 | the bytes of a word divide out independently, each through the table for its distance |
| `Crc.ReferenceWord` | crypto/crc.c:586-593 | four bytes of the reference are one word of division |
| `Crc.ReferenceTwoWords` | crypto/crc.c:624-641 | eight bytes of the reference are the two sliced words |
| `Crc.UpdateBy1` | crypto/crc.c:557-564 | the byte loop computes bit-by-bit division |
| `Crc.UpdateBy4` | crypto/crc.c:566-602 | slicing by four computes the same, exactly when the buffer reaches its first aligned word |
| `Crc.UpdateBy8` | crypto/crc.c:604-649 | slicing by eight computes the same, exactly when the buffer reaches its first aligned word |
| `Crc.ShortBuffer` | crypto/crc.c:574-577 | one byte at an odd address is too short |
| `Crc.ReferenceConcat` | crypto/crc.c:762-766 | the CRC of a message may be taken piece by piece |
| `Crc.Crc32.Update` | crypto/crc.c:743-766 | every mode advances the state like the reference |
| `Crc.UpdateAll` | crypto/crc.c:762-766 | for any split of a message and any alignment of its parts all modes agree with the reference |
| `Crc.Hash` | crypto/crc.c:774-782 | the complemented reference from the complemented start |
| `Crc.TurnedBytes` | crypto/crc.c:734-738 | the bytes are reversed |
| `Crc.Generate` | crypto/crc.c:722-741 | the byte-reversed CRC |
| `Crc.HashBothWays` | crypto/crc.c:722-782 | the two entry points are byte reversals of each other |
| `Getopt.BottomDone` | generic/opt/getopt.c:229-245 | one round with the shorter block at the bottom leaves the same exchange to do on a smaller span |
| `Getopt.TopDone` | generic/opt/getopt.c:246-262 | likewise with the shorter block on top |
| `Getopt.Exchange` | generic/opt/getopt.c:192-269 | the second block followed by the first, each in order, the rest alone, and the indices name the moved block |
| `Dirty.Index.Add` | generic/opt/section.c:25-36 | the section is appended unless it is the last entry already |
| `Dirty.Index.Compress` | generic/opt/section.c:49-59 | the compressed array is strictly increasing and loses no section |
| `Dirty.Index.SortDirty` | generic/opt/section.c:43-60 | the same set, strictly increasing |
| `Dirty.FirstGe` | generic/bsearch.h:18-28 | everything before the result is lower, nothing from it on is |
| `Dirty.Index.Find` | generic/opt/section.c:181-188 | finds a section exactly when it is in the index |
| `Dirty.Index.CommitAll` | generic/opt/section.c:193-204 | the hooks of exactly the marked sections, or of all, or none, as the mode says, are called in order up to the first that fails; the index is reset if hooks were called and none failed, else keeps its set |
| `Dirty.Lookup` | generic/opt/section.c:25-60 | after any history of marks and sorts the search finds exactly the marked sections |

## Left out

- RadixSort.AsortRadix: says nothing about success above 2^30+4 elements, where a bucket left to quicksort may overflow an int.
- Governor.Internal: the buffer holds at most 2^30+4 records, the most that quicksort can index for certain.
- Governor.TwowayData: custom presorting is not modelled.
- InternalUnify.TwowayUnified: the governor is not run with SORT_UNIFY; what lies behind the sorted records in memory is a parameter.
- Unify.MergeUnify: a merged record is represented by the list of the records it is merged from.
- Mempool.Pool.Push: the saved state is kept in a field, not in the bytes of its block; that block is live, so no other block shares a byte with it.
- Mempool.Malloc: memory never runs out, and chunks get new names, so the model does not show an address being used again after free.
- Mempool.Pool.Open: the last block is younger than the last push or pop, as the comments in mem/pool.h:416-420 demand.
- Journal.Context.Transact: what a file or string asks for is a list of saves, writes and allocations in which older words are written after they were saved; parsing, commit hooks and `everything_committed` are not modelled.
- FbFile.File.Refill: read errors, negative seeks, writing through the buffer, and buffers so large that 32-bit differences are cut off are not modelled.
- Crc.Table: a table is its definition from the polynomial; the literal entries at the powers of two are proved and the others follow by addition; little-endian loads are assumed.
- Dirty.Index.SortDirty: at most 2^30+4 marks between two resets.
- Variable-size records (generic/sorter/s-internal.h), files, temporary files and buffers behind buckets (generic/sorter/sbuck.c), timers and tracing.
- Thread-pool internals: workers are modelled by the order in which their steps complete.
- Pools set up by `mp_init`, `mp_save` to memory of the caller, and the string helpers of the pool: they would only add easy members.
- Configuration parsing, option tables, the rest of `intr.c`, and `cf_revert`.
- MD5, SHA-1, SHA-256, Base64, other checksums and hash functions, `mem/block.c`, `mem/map.c`, `mem/page.h`, fb-mmap, fb-param, trans, signals and the network code.
