# NIXL transfer core, modelled and verified in Dafny

A model of the parts of NIXL (a library that moves data between agents' registered memory) where a small
slip moves the wrong bytes, loses a registration or hangs a shutdown. Nothing here runs the library; the
properties are proved about the model, for all inputs, all runs and all reachable states.

Check everything with `dafny verify dfyconfig.toml`.

| file | part of the system |
|---|---|
| `MachineInt.dfy`, `Descriptors.dfy` | machine integers with explicit wrap-around; descriptors and the bytes they move |
| `ContinuationBitmap.dfy` | chunked 64-bit bitmap of index continuations |
| `StrideRuns.dfy`, `MergeIndices.dfy`, `MergeMeaning.dfy` | strided lists, merging of index pairs, and what merged descriptors mean |
| `Coverage.dfy`, `Populate.dfy`, `PreStrided.dfy` | cover tests, the three forms of `populate`, stride compression |
| `XferPipeline.dfy`, `BackendOrder.dfy`, `XferEquivalence.dfy` | `prepXferDlist`, `makeXferReq`, `createXferReq` over all backends, the order they are met in, and when the two ways are equivalent |
| `SectionList.dfy`, `SecDescList.dfy` | sorted section list: insertion, in-place merge, in-place removal |
| `Registration.dfy`, `LocalSection.dfy` | registration with rollback, the local section map and every backend's account |
| `SerDes.dfy`, `MetadataBlob.dfy`, `RemoteSection.dfy`, `RemoteOutcome.dfy`, `RemoteLoading.dfy`, `MetadataExchange.dfy` | byte form of metadata, loading it, and the way from local to remote sections |
| `XferRequest.dfy`, `Generations.dfy` | life of a transfer request; remote registrations and weak references to them |
| `MetadataWorker.dfy` | the metadata worker thread as interleaved atomic steps |
| `EtcdBarrier.dfy`, `Reduction.dfy`, `EtcdCollectives.dfy`, `EtcdProgress.dfy`, `EtcdKeys.dfy` | counting barrier and collectives over a compare-and-swap store, why they end, and the text of their keys |

The form follows the source. Code that updates fields or arrays step by step is a class or a method with
loops, proved against a function of the old state; pure code is functions; threads and ranks are state
machines whose runs are sequences of enabled steps.

## What the code does not do

Eight promises hold only under a condition. Each has a lemma with a failing case and one with the exact
condition.

- Merging treats the step from the largest to the smallest `int` as growth by one, and a negative index as
  a block number just below 2^64. It means one block per index exactly when no mergeable pair of runs
  crosses block 2^31 and no run pair holds a block a negative index is taken for
  (`MergeMeaning.NegativeIndexExample`, `MergeMeaning.HugeListExample`, `MergeMeaning.MergeMeaningIff`).
- The run size of a prepared list is computed with a sum that wraps. Looking up a block divides by it, and
  it is zero exactly when blocks and runs together exceed 2^64 (`PreStrided.ZeroRunSizeExample`,
  `StrideRuns.RunSizeIff`).
- Removal by index walks the sorted indices with one cursor. A repeated index stops it, and every larger
  listed element stays. `remDescList` with a repeated descriptor deregisters its section twice
  (`SectionList.RepeatedIndexExample`, `SectionList.RemovesListedIff`, `SecDescLists.StrikesNamedIff`,
  `LocalSections.RepeatedRemoval`).
- A failed first registration leaves an empty list behind. The agent's metadata then cannot be loaded by
  anyone, nor if one range is registered twice with different public metadata
  (`MetadataBlob.EmptyListExample`, `MetadataBlob.SectionsRoundTripIff`, `RemoteLoading.RoundTripIff`,
  `MetadataExchange.LocalToRemoteIff`).
- The memory type of a loaded entry is not checked. One outside the enumeration indexes `memToBackend` out
  of range exactly when its backend is known and takes remote metadata and everything before it loads
  (`RemoteLoading.ForeignCodeExample`, `RemoteLoading.OutOfRangeIff`, `RemoteLoading.OutOfRangeClosed`).
- `createXferReq` walks a set ordered by pointer, `makeXferReq` a hash map or the caller's own list, and
  both take the first backend that serves. With two that do, they can reach different ones, or one of them
  none at all for want of notifications. They agree for all orders exactly when the lists do not match, the
  remote is unknown, at most one backend serves both, or none that does can send the notification asked
  for (`BackendOrder.TwoBackendsDisagree`, `BackendOrder.ChoicesAgreeIff`).
- A release answers success whatever the backend says to the destructor's call. The handle of a request
  that is gone was released exactly if the backend accepted the last call of `releaseReqH`
  (`XferRequest.IgnoredRefusal`, `XferRequest.RunRequest`).
- A stop that does not own the join can sleep through IDLE if a start follows at once. It is exactly the
  call that can no longer return without a further stop (`MetadataWorker.StopCanMissIdle`,
  `MetadataWorker.CallReturnsIff`).

## Hypotheses

- Sections of one list are disjoint per device, non-empty, and do not wrap, except for the unbounded
  length of file-like memory. The source trusts its callers with this (`Coverage.Registered`). Where it
  is not needed it is not required: the answers of `populate` are right without it, only completeness
  needs it.
- Descriptor and index lists have fewer than 2^31 elements, as the source's `int` counts do.
- A backend answers every call as it likes. A metadata object stands for one registered range and one public
  blob. The answer when loading remote metadata, and that of prepXfer, is a function of what it is given.
- Time budgets and time-outs of waits are free choices. Tasks that run inline do not submit again.
- The store is linearizable, keys are fresh, the group id tells groups apart, and all ranks issue the same
  sequence of collectives. Barriers do not time out. Numbers to reduce are reals.

## Model

| member | source | states |
|---|---|---|
| `ContinuationBitmap.Bitmap.CountContinuations` | src/core/nixl_agent.cpp:62-78 | equals the plain length of the run of pairs whose indices both grow by one, capped at the limit, for every list length and every chunk and word alignment; the chunk only moves forward, never past the next position the caller can ask for |
| `ContinuationBitmap.Bitmap.CountInChunk` | src/core/nixl_agent.cpp:128-140 | the scan by trailing ones across word boundaries counts exactly the run inside the chunk, and reads only words that were filled |
| `ContinuationBitmap.Bitmap.FillChunk` | src/core/nixl_agent.cpp:109-126 | after a refill every word of the chunk holds the continuation bits of its 64 pairs (part of `Valid`), and the chunk spans as many pairs as fit or are left |
| `ContinuationBitmap.Bitmap.FillWord` | src/core/nixl_agent.cpp:109-126 | two half-words, or the single pairs of a short tail, make the word of the 64 pairs from a position, with zeros past the end of the lists |
| `ContinuationBitmap.ContinuationBits` | src/core/nixl_agent.cpp:90-107 | the unrolled loop over 32 pairs packs their continuation bits, first pair lowest |
| `ContinuationBitmap.Bitmap.constructor` | src/core/nixl_agent.cpp:54-60 | an empty chunk, so that the first position always refills |
| `ContinuationBitmap.RunLengthUnique` | src/core/nixl_agent.cpp:62-88 | the run length is characterised without recursion: all pairs before it continue, and the pair at it does not unless the limit is reached |
| `ContinuationBitmap.WordRun` | src/core/nixl_agent.cpp:128-140 | trailing ones of a shifted word count continuations up to the word's end, and a count that reaches the end is the only one that may go on |
| `Bits.PackTrailingOnes` | src/core/nixl_agent.cpp:128-140 | counting trailing ones of a packed word is finding the first false bit |
| `Bits.PackShift` | src/core/nixl_agent.cpp:128-140 | shifting a packed word right drops its first bits |
| `Bits.PackAppend` | src/core/nixl_agent.cpp:109-126 | joining two packed halves is packing the joined bits |
| `Bits.OrDisjoint` | src/core/nixl_agent.cpp:109-126 | or-ing a shifted half onto a smaller value adds it |
| `StrideRuns.Find` | src/api/cpp/backend/backend_aux.h:197-221 | whenever the run size is positive, the probe and the binary search behind it return the one run that holds the flat index |
| `StrideRuns.CeilingProbe` | src/api/cpp/backend/backend_aux.h:197-205 | with blocks and runs together at most 2^64, the probe with the rounded-up mean run size stays inside the list |
| `StrideRuns.RunSizeIff` | src/core/nixl_agent.cpp:165-172 | the run size, whose sum wraps at 2^64, is positive if and only if blocks and runs together are at most 2^64; otherwise the lookup divides by zero |
| `StrideRuns.SearchRuns` | src/api/cpp/backend/backend_aux.h:209-221 | the binary search, started at the failed guess, ends at the run that holds the index |
| `PreStrided.ZeroRunSizeExample` | src/infra/nixl_memory_section.cpp:254-260 | two runs that pass the guards in an unbounded section give a list whose run size is zero |
| `StrideRuns.InRunUnique` | src/api/cpp/backend/backend_aux.h:183-195 | start indices partition the flat index space: no index is in two runs |
| `StrideRuns.ExpandAt` | src/api/cpp/backend/backend_aux.h:155-195 | flat index start + k of the expanded list is block k of the run, and the flat size is the number of blocks |
| `StrideRuns.GetOneBlock` | src/api/cpp/backend/backend_aux.h:172-180 | a one-block descriptor cut from a run is that block of the run, in 64-bit wrapping arithmetic |
| `IndexMerging.MergeIndices` | src/core/nixl_agent.cpp:150-226 | for every pair of run lists whose lookup is defined, the loop with cached runs, deferred validity checks and the bitmap accepts, rejects and emits exactly what `Merge` does, which looks up every run afresh and counts every run of pairs naively; the byte total is its total in 64 bits |
| `IndexMerging.EnterRuns` | src/core/nixl_agent.cpp:183-210 | the wrapping-difference test keeps a cached run only if it holds the index; otherwise both runs are looked up again, and out-of-range indices or unequal block lengths reject |
| `IndexMerging.CountSequence` | src/core/nixl_agent.cpp:212-219 | the number of blocks merged into one descriptor stays inside both runs and both lists and never skips a pair |
| `IndexMerging.MergeStep` | src/core/nixl_agent.cpp:212-224 | appending one merged descriptor and skipping its pairs keeps the result of the whole merge |
| `IndexMerging.MergeIsMaximal` | src/core/nixl_agent.cpp:212-224 | merging leaves nothing out: the pairs are cut into one chunk per descriptor, every pair of a chunk continues its predecessor inside both dense runs, and the pair behind a chunk does not |
| `MergeMeaning.MergePreservesMeaning` | src/core/nixl_agent.cpp:150-226 | for safe run lists of any size, every index pair sequence is accepted exactly when each pair is in range with equal block lengths, and then the ordered (local byte, remote byte) pairs of the merged descriptors and the byte total are those of one block per index |
| `MergeMeaning.MergeMeaningIff` | src/core/nixl_agent.cpp:150-226 | for run lists of any size, merging means one block per index for all index lists if and only if no two mergeable runs of equal block length reach across block 2^31 from below it and no two runs of equal block length hold a block that a negative index is taken for |
| `MergeMeaning.MergeUnsafe` | src/core/nixl_agent.cpp:85-88 | for every run list that fails the condition: index lists that are accepted although an index is negative |
| `MergeMeaning.NegativeIndexExample` | src/core/nixl_agent.cpp:85-88 | with one dense run of 2^31 + 1 blocks on both sides, the index list of the largest and the smallest `int` is accepted |
| `MergeMeaning.HugeListExample` | src/core/nixl_agent.cpp:183-199 | a run of 2^64 - 1 blocks, which can be looked up, accepts the index -2 |
| `MergeMeaning.NegativeAccepted` | src/core/nixl_agent.cpp:183-199 | for every pair of run lists that hold a block a negative index is taken for: an accepted pair of indices, one of them negative |
| `MergeMeaning.MergesAcross` | src/core/nixl_agent.cpp:85-88 | the step from the largest to the smallest `int` counts as growing by one, so it merges inside a run that reaches that far |
| `MergeMeaning.SmallListsAreSafe` | src/core/nixl_agent.cpp:150-226 | lists of at most 2^31 blocks always meet the condition |
| `MergeMeaning.SpanBytes` | src/core/nixl_agent.cpp:212-224 | the bytes of s consecutive dense blocks on both sides, pair by pair, are the bytes of the one merged descriptor pair |
| `MergeMeaning.SequenceIndices` | src/core/nixl_agent.cpp:212-219 | the pairs merged into one descriptor are consecutive indices on both sides |
| `Coverage.CoverTestsAgree` | src/infra/nixl_memory_section.cpp:32-45 | the test with a precomputed end equals `covers` on all 64-bit inputs; both equal true interval containment for ranges that do not wrap, and a wrapping range covers nothing |
| `Coverage.CoversFollowingAgrees` | src/infra/nixl_memory_section.cpp:47-53 | after a covered predecessor in list order, the test without the start comparison equals `covers` |
| `Coverage.CoveringUnique` | src/api/cpp/nixl_descriptors.h:115-132 | among disjoint sections at most one covers a query of positive length |
| `Coverage.OverlapMeans` | src/infra/nixl_descriptors.cpp:65-71 | ranges overlap exactly when they share a byte, so ranges that only touch do not |
| `Coverage.GetCoveringIndexComplete` | src/infra/nixl_descriptors.cpp:514-525 | the lookup through one lower bound and its predecessor finds a covering section whenever there is one |
| `Populate.Walk` | src/infra/nixl_memory_section.cpp:102-142 | the ordered walk succeeds if and only if every query lies inside some section, whatever the query order, and answers each query with the metadata of a section that covers it |
| `Populate.WalkForward` | src/infra/nixl_memory_section.cpp:122-138 | stepping forward from the last section finds the covering section, or proves there is none |
| `Populate.NextSection` | src/infra/nixl_memory_section.cpp:112-138 | a query before its predecessor is searched for, one after it is walked to; both find a covering section whenever there is one |
| `Populate.Search` | src/infra/nixl_descriptors.cpp:514-525 | finds a covering section exactly when there is one |
| `Populate.AnswerUnique` | src/infra/nixl_memory_section.cpp:82-143 | over disjoint sections a list of positive-length queries has only one answer |
| `Populate.WalkCompressed` | src/infra/nixl_memory_section.cpp:145-228 | expanding the compressed runs answers the queries one by one, start indices partition [0, n), dense runs do not wrap, no run could have taken in the next one, and success is exactly coverage of all queries |
| `Populate.CompressNext` | src/infra/nixl_memory_section.cpp:201-223 | extending the current run, fixing its stride at the second block, or closing it keeps the expansion equal to the descriptors seen so far |
| `Populate.ExtendAppends` | src/infra/nixl_memory_section.cpp:203-217 | a run that takes one more block expands to its blocks and that one |
| `PreStrided.ResolveRuns` | src/infra/nixl_memory_section.cpp:230-278 | success means every run passes the guards and its whole span lies in one section, and the runs expand to the answer for the flattened queries with the same flat indices; a failure names the first bad run and its error |
| `PreStrided.GuardsBound` | src/infra/nixl_memory_section.cpp:254-260 | the guards rule out overflow of the span, of every block address and of the index sum |
| `PreStrided.GuardsExact` | src/infra/nixl_memory_section.cpp:254-260 | and nothing else: a run passes exactly if it has blocks with bytes that do not overlap, its last block ends inside the address space and its indices fit |
| `PreStrided.SpanCoversBlocks` | src/infra/nixl_memory_section.cpp:262-265 | a section that covers the span of a run covers each of its blocks |
| `PreStrided.StridedRefinesExpanded` | src/api/cpp/nixl.h:203-210 | whenever the pre-strided path succeeds, the expanded list is covered too and has exactly the flattened blocks and metadata as its answer |
| `XferPipeline.PopulateList` | src/infra/nixl_memory_section.cpp:82-143 | which error each bad input gets, the response left alone or emptied on failure, and the answer on success |
| `XferPipeline.PopulateCompressed` | src/infra/nixl_memory_section.cpp:145-228 | the same for the compressing overload, whose runs expand to the answer |
| `XferPipeline.PopulateRuns` | src/infra/nixl_memory_section.cpp:230-278 | the same for the strided overload: success exactly when every run passes the guards and its span is covered, with runs that answer the flattened list; a failure is that of the first bad run |
| `XferPipeline.CreateXferReq` | src/core/nixl_agent.cpp:1116-1266 | reaches the prepXfer of the first backend that has both lists registered, exactly when the lists match pair by pair, the remote is known, such a backend exists and it can notify if asked to; each side is then the answer for its list and the status is the backend's; every other status says which check failed |
| `XferPipeline.ChooseBackend` | src/core/nixl_agent.cpp:1196-1217 | the loop over the backends stops at the first that serves both lists, with the descriptors of that one |
| `XferPipeline.TotalBytes` | src/core/nixl_agent.cpp:1134-1148 | succeeds exactly on lists of equal size with equal lengths pair by pair, and sums them in 64 bits |
| `XferPipeline.PrepXferDlist` | src/core/nixl_agent.cpp:837-909 | prepares the list for exactly the backends that have all of it registered, as runs that expand to its answer, and fails exactly when there is none |
| `XferPipeline.PrepStrided` | src/core/nixl_agent.cpp:837-909 | prepares a strided list for exactly the backends that cover the span of every run, as runs that expand to the answer for the flattened list |
| `XferPipeline.MakeXferReq` | src/core/nixl_agent.cpp:965-1114 | reaches the prepXfer of the first backend prepared on both sides exactly when sides, index lists, notification and remote registration pass their checks and the merge accepts the indices; the descriptors are the merge's and the status is the backend's; every other status says which check failed |
| `XferEquivalence.PrepThenMake` | src/core/nixl_agent.cpp:965-1114 | preparing both lists and making a request of all indices, with the backends met in any order, reaches the prepXfer of the first that serves both lists in that order, exactly when the lists match, the remote is known and it can notify if asked to, and moves the bytes of the two answers |
| `XferEquivalence.PreppedEqualsCreated` | src/api/cpp/nixl.h:281-289 | the documented equivalence, over all backends and with an order of its own for each call: whenever the order does not matter, prepare and make with all indices reaches prepXfer exactly when create does, of the same backend; and whenever both reach the same backend, they move the same byte pairs in the same order and the same byte count |
| `BackendOrder.ChoicesAgreeIff` | src/core/nixl_agent.cpp:1196-1217 | the backend a request reaches is the same for all orders of the backends if and only if the lists do not match, or the remote is unknown, or at most one backend has both lists registered, or a notification is asked for that none of those can send |
| `BackendOrder.SameChoice` | src/core/nixl_agent.cpp:997-1016 | under that condition any two orders lead to the same backend, or both to none |
| `BackendOrder.FirstDecides` | src/core/nixl_agent.cpp:997-1016 | for every backend that serves both lists there is an order that decides for it, or fails on its missing notifications |
| `BackendOrder.TwoBackendsDisagree` | src/core/transfer_request.h:124-125 | two backends that serve the same lists: one order reaches the first, the other the second, and with a notification only one order reaches any |
| `XferEquivalence.StridedMovesSame` | src/api/cpp/nixl.h:203-210 | for safe run lists, a request of any indices of strided lists is accepted exactly when the same request of the flattened lists is, and moves the same byte pairs and byte count |
| `XferEquivalence.StridedEqualsFlat` | src/api/cpp/nixl.h:203-210 | from the calls on: preparing strided lists and making a request of any indices reaches the backend only if the same calls on the flattened lists do, and exactly then when the strided lists can be prepared; it moves the same byte pairs and byte count |
| `XferEquivalence.StridedImpliesFlat` | src/api/cpp/nixl.h:203-210 | a backend that prepares a strided list has its flattened list registered too |
| `XferEquivalence.MergedInsideSections` | src/core/nixl_agent.cpp:1069-1081 | if metadata pointers are distinct per section, every merged descriptor on either side lies inside one registered section with its metadata |
| `XferEquivalence.SpanInside` | src/core/nixl_agent.cpp:212-224 | a dense span whose first and last block lie in sections of the same metadata lies in that one section |
| `SectionList.MergeInPlace` | src/infra/nixl_descriptors.cpp:426-446 | merging backwards in the grown vector, with moved-out elements turned into holes, gives the stable merge of the old list and the batch: nothing is overwritten before it is read |
| `SectionList.MergeBack` | src/infra/nixl_descriptors.cpp:433-442 | at every point of the backward loop the unread front is intact and the written tail is the rest of the merge |
| `SectionList.MergeSorted` | src/infra/nixl_descriptors.cpp:405-446 | the merge of sorted lists is sorted |
| `SectionList.MergeSize` | src/infra/nixl_descriptors.cpp:405-446 | the merge holds exactly the elements of both lists |
| `SectionList.AddSortedKeeps` | src/infra/nixl_descriptors.cpp:405-446 | all four paths (empty list, append, prepend, merge) give a sorted list of the elements of both |
| `SectionList.InsertSorted` | src/infra/nixl_descriptors.cpp:378-393 | inserting at the upper bound keeps the list sorted |
| `SectionList.InsertAdds` | src/infra/nixl_descriptors.cpp:378-393 | inserting adds that element and nothing else |
| `SectionList.NormalizeMeans` | src/infra/mem_section.h:124-150 | only a zero length of block, object or file memory changes, to the largest there is, and normalizing again changes nothing |
| `SectionList.Sort` | src/infra/nixl_descriptors.cpp:460-464 | a sorted permutation of the batch |
| `SectionList.SortIndices` | src/infra/nixl_descriptors.cpp:482-486 | an ascending permutation of the indices |
| `SectionList.CompactConserves` | src/infra/nixl_descriptors.cpp:476-501 | what compaction keeps and what it drops together are the old list |
| `SectionList.DroppedNamed` | src/infra/nixl_descriptors.cpp:488-500 | what compaction drops are the elements the cursor went past, in order |
| `SectionList.CompactSorted` | src/infra/nixl_descriptors.cpp:476-501 | compaction keeps a sorted list sorted and adds nothing |
| `SectionList.RemovesListedIff` | src/infra/nixl_descriptors.cpp:488-500 | compaction removes exactly the listed positions if and only if no index is repeated below a larger listed position of the list |
| `SectionList.RepeatedIndexExample` | src/infra/nixl_descriptors.cpp:488-500 | removing 0, 0 and 1 from a list of two elements leaves element 1 |
| `SectionList.StuckMisses` | src/infra/nixl_descriptors.cpp:488-500 | a repeated index stops the cursor: every larger listed position stays in the list |
| `SectionList.DropsListed` | src/infra/nixl_descriptors.cpp:488-500 | a position that is removed was listed, and without a stuck cursor every listed one is removed |
| `SecDescLists.SecDescList.AddDesc` | src/infra/nixl_descriptors.cpp:378-393 | the list becomes the old one with the normalized descriptor inserted; it stays sorted and free of zero lengths for file-like types |
| `SecDescLists.SecDescList.AddSortedDescs` | src/infra/nixl_descriptors.cpp:405-446 | the list becomes the merge of the old one and the batch, with the same invariants |
| `SecDescLists.SecDescList.AddDescs` | src/infra/nixl_descriptors.cpp:448-474 | the list gains exactly the normalized batch and stays sorted; no element changes nothing, one is inserted, and more are merged as they are or in some sorted arrangement |
| `SecDescLists.SecDescList.RemDescs` | src/infra/nixl_descriptors.cpp:476-501 | for any index list, the list loses exactly the struck positions: those listed below which nothing is listed twice |
| `SecDescLists.SecDescList.GetIndex` | src/infra/nixl_descriptors.cpp:503-512 | the first position of the normalized key, or a negative result exactly when it is absent |
| `SecDescLists.RemoveConserves` | src/infra/nixl_descriptors.cpp:476-501 | for distinct in-range indices, what stays and what the indices name together are the old list |
| `SecDescLists.RunOps` | src/infra/nixl_descriptors.cpp:378-501 | over any sequence of additions and removals by any indices, the list is what it was and what was added minus what each removal strikes from the list it meets; it is sorted after every operation and file-like lists hold no zero length |
| `SecDescLists.ApplyOp` | src/infra/nixl_descriptors.cpp:378-501 | one operation of such a run: an insertion gives exactly the insertion, a removal exactly what is not struck, a batch the sorted list of both |
| `SecDescLists.RunConserves` | src/infra/nixl_descriptors.cpp:378-501 | conservation over every trace of lists whose steps are such operations |
| `SecDescLists.DropsStruck` | src/infra/nixl_descriptors.cpp:488-500 | the cursor over the sorted indices removes exactly the struck positions, whatever order the indices came in |
| `SecDescLists.StrikesNamedIff` | src/infra/nixl_descriptors.cpp:476-501 | a removal takes away exactly the elements its indices name if and only if no index is repeated |
| `Registration.RegisterOne` | src/infra/nixl_memory_section.cpp:333-363 | a section carries the metadata the backend registered for its range and the public data of exactly that metadata, or none for a backend without remote support, and its loopback side metadata loaded from it; a descriptor whose registration, loopback load or public data fails gives back what it had acquired |
| `Registration.RegisterAll` | src/infra/nixl_memory_section.cpp:330-364 | the same of a list; after a failure at any element the backend holds exactly the elements before it |
| `Registration.RollBack` | src/infra/nixl_memory_section.cpp:371-379 | rolling back returns the backend to what it held before, local and loopback metadata alike |
| `LocalSections.LocalSection.constructor` | src/infra/mem_section.h:161-175 | a new section is balanced with backends that hold nothing |
| `LocalSections.LocalSection.Emplace` | src/infra/nixl_memory_section.cpp:56-64 | an absent list is added empty to both maps, a present one is left alone |
| `LocalSections.LocalSection.AddDescList` | src/infra/nixl_memory_section.cpp:304-381 | success adds one normalized section per descriptor to the list, the backend's account and the loopback list, with the metadata registered for it and that metadata's public data; failure at any backend call registers nothing net and leaves at most an empty list; live metadata stays exactly what the lists hold, every section of every list stays genuine, and `memToBackend` mirrors the section keys |
| `LocalSections.LocalSection.AddSections` | src/infra/nixl_memory_section.cpp:366-370 | merging a registered batch into its list settles the backend's account |
| `LocalSections.LocalSection.RemDescList` | src/infra/nixl_memory_section.cpp:383-424 | succeeds if and only if all descriptors are registered, repeated ones included; the list then loses exactly the struck places and every call of the backend takes one object or finds none to take; for distinct descriptors exactly they leave the list and the backend and the account balances; an emptied list leaves both maps, and a failure changes nothing |
| `LocalSections.LocalSection.RemoveAt` | src/infra/nixl_memory_section.cpp:408-421 | deregistering the sections at any places and striking them: what the list and the backend lose, and that the accounts balance if the places are distinct |
| `LocalSections.LocalSection.PutList` | src/infra/nixl_memory_section.cpp:412-421 | the list is stored, or its key removed from both maps when it is empty, and the two maps still mirror each other |
| `LocalSections.FindAll` | src/infra/nixl_memory_section.cpp:397-406 | finds the first index of every descriptor exactly when all are registered, at distinct places exactly when the descriptors are distinct |
| `LocalSections.RepeatedRemoval` | src/infra/nixl_memory_section.cpp:408-412 | what a removal of registered descriptors deregisters is what its list loses if and only if the descriptors are distinct |
| `LocalSections.DeregisterAll` | src/infra/nixl_memory_section.cpp:408-410 | every call takes one object of the named sections from the backend or finds none to take; if the backend holds them all, it loses exactly those |
| `LocalSections.LocalSection.SerializePartial` | src/infra/nixl_memory_section.cpp:464-508 | fails exactly when a descriptor is missing from the list of a chosen backend that has one; otherwise each such list contributes, sorted, exactly its sections of those descriptors |
| `LocalSections.PickPart` | src/infra/nixl_memory_section.cpp:486-502 | the sorted sections of the queried descriptors, if and only if all are there |
| `LocalSections.LocalSection.Destroy` | src/infra/nixl_memory_section.cpp:510-517 | every backend ends with no live metadata, and was never asked for an object it did not hold |
| `LocalSections.LocalSection.DropList` | src/infra/nixl_memory_section.cpp:511-516 | giving back one list takes it out of both maps and keeps every account balanced |
| `LocalSections.StoredGrow` | src/infra/mem_section.h:161-170 | changing one list changes what a backend's lists hold by exactly that list's change |
| `SerDes.FieldRoundTrip` | src/utils/serdes/serdes.cpp:37-80 | a field that was added is read back by `getStr` and by `getBuf`, which stop right behind it |
| `SerDes.GetStrIff` | src/utils/serdes/serdes.cpp:50-80 | for any bytes: a string is read, and reading ends just past it, exactly when tag, length, value and one more byte stand there; where the tag does not stand nothing is read |
| `SerDes.GetBufIff` | src/utils/serdes/serdes.cpp:131-167 | for any bytes: a buffer is read exactly when one of that tag and length stands there, and reading ends just past it |
| `SerDes.StreamRoundTrip` | src/utils/serdes/serdes.cpp:37-80 | a stream of any number of fields with any tags is read back field by field |
| `SerDes.FieldsSnoc` | src/utils/serdes/serdes.cpp:37-48 | adding a field to a stream extends it at the end |
| `SerDes.DecodeEncode` | src/utils/serdes/serdes.cpp:28-35 | fixed-width little-endian integers are read back, whatever the width |
| `SerDes.Stream.AddStr` | src/utils/serdes/serdes.cpp:37-48 | appends exactly one field and leaves the read position |
| `SerDes.Stream.Import` | src/utils/serdes/serdes.cpp:179-190 | takes a byte string exactly when it starts with the header, and reads on behind it |
| `MetadataBlob.DescRoundTrip` | src/infra/nixl_descriptors.cpp:73-124 | a descriptor with its metadata survives its byte form, empty metadata included |
| `MetadataBlob.DescsRoundTrip` | src/infra/nixl_descriptors.cpp:141-204 | any number of descriptors survive theirs |
| `MetadataBlob.DescsOutcome` | src/infra/nixl_descriptors.cpp:187-200 | for any bytes: descriptors are read from all values or, if one is too short, from none |
| `MetadataBlob.ListOutcome` | src/infra/nixl_descriptors.cpp:141-204 | for any bytes: exactly when a list is read, with what memory type and descriptors; everything else leaves it empty |
| `MetadataBlob.ListRoundTrip` | src/infra/nixl_descriptors.cpp:141-302 | a serialized list is read back with its memory type and descriptors, and reading stops right behind it |
| `MetadataBlob.EntriesRoundTrip` | src/infra/nixl_memory_section.cpp:427-457 | the entries of a section map are read back up to the first empty one |
| `MetadataBlob.SectionsRoundTripIff` | src/infra/nixl_memory_section.cpp:564-596 | a serialized section map can be read back if and only if no list in it is empty; otherwise the result is NOT_FOUND after the lists before the empty one |
| `MetadataBlob.EmptyListExample` | src/infra/nixl_memory_section.cpp:582-585 | a section map with a single empty list is refused with NOT_FOUND |
| `RemoteSections.AddAllIs` | src/infra/nixl_memory_section.cpp:524-562 | loading descriptors succeeds exactly when none conflicts with the list or with another of them, and the list then holds the union, each range once, in order |
| `RemoteSections.AddOneIs` | src/infra/nixl_memory_section.cpp:537-559 | one descriptor is added if new, skipped if present, refused exactly on different metadata |
| `RemoteOutcomes.AddOneOutcome` | src/infra/nixl_memory_section.cpp:537-559 | whatever the backend answers: a range that is there with other metadata is refused with NOT_ALLOWED, one that is there with the same is skipped, a new one ends with the backend's error or is inserted with the metadata it loaded |
| `RemoteSections.StrictUnique` | src/infra/nixl_memory_section.cpp:524-562 | a list without repeated ranges is determined by its contents |
| `RemoteSections.LoadByKey` | src/infra/nixl_memory_section.cpp:564-596 | a load treats the lists independently: it succeeds exactly when each list takes all descriptors meant for it, and each list is what those alone make of it |
| `RemoteSections.LoadIs` | src/infra/nixl_memory_section.cpp:564-596 | exactly when a load into any section succeeds, and that every list is then the union of old and new |
| `RemoteOutcomes.AddAllOutcome` | src/infra/nixl_memory_section.cpp:524-562 | whatever the backend answers: loading a list stops at the first descriptor that clashes or is new and refused, with that status; without one the list holds its old sections and each new range once, as the backend loaded it, and nothing else |
| `RemoteOutcomes.LoadOutcome` | src/infra/nixl_memory_section.cpp:564-596 | the same over the entries of a blob: it succeeds exactly when every known backend takes remote metadata and no descriptor fails, and otherwise the first entry that fails gives the status |
| `RemoteOutcomes.LoadedIsThere` | src/infra/nixl_memory_section.cpp:564-596 | after a load every descriptor of a known backend is in its list, under its normalized range with its own metadata |
| `RemoteOutcomes.RefusalEnds` | src/infra/nixl_memory_section.cpp:546-550 | the first new descriptor that a backend refuses ends the load with the backend's status |
| `RemoteSections.LoadAppend` | src/core/nixl_agent.cpp:2093-2109 | loading two blobs in turn is loading their entries together |
| `RemoteSections.LoadOrder` | src/core/nixl_agent.cpp:2093-2109 | blobs accumulate to the same section in either order, or fail in both |
| `RemoteSections.PartialThenFull` | src/core/nixl_agent.cpp:2093-2109 | a blob whose contents are part of a second one adds nothing to it |
| `RemoteSections.Reload` | src/core/nixl_agent.cpp:2093-2109 | loading the same blob again changes nothing |
| `RemoteLoading.RoundTripIff` | src/infra/nixl_memory_section.cpp:427-596 | a new remote section takes the byte form of a section map if and only if no list is empty and no range stands in it twice with different metadata; it then holds what the blob holds |
| `RemoteLoading.SentOutcome` | src/infra/nixl_memory_section.cpp:427-596 | into any section and whatever the backends answer: the byte form of a section map is taken if and only if no list is empty and none of its descriptors fails, and every list then gathers what is new to it |
| `RemoteLoading.TakenIff` | src/infra/nixl_memory_section.cpp:564-596 | exactly when a blob as read is taken: it can be read to its end, its known backends take remote metadata and have memory types of the enumeration, and no descriptor clashes or is refused |
| `RemoteLoading.TakenIsThere` | src/infra/nixl_memory_section.cpp:564-596 | every descriptor of a known backend in a blob that was taken is in its list with its own metadata |
| `RemoteLoading.RoundTrip` | src/infra/nixl_memory_section.cpp:427-596 | without repeated ranges every list arrives with the same descriptors and metadata in the same order |
| `RemoteLoading.RemoteSection.AddDesc` | src/infra/nixl_memory_section.cpp:537-559 | one round of the loop, on the map in place |
| `RemoteLoading.RemoteSection.AddDescs` | src/infra/nixl_memory_section.cpp:535-561 | the loop over one list reaches the result or the first error of loading one descriptor after another |
| `RemoteLoading.RemoteSection.AddDescList` | src/infra/nixl_memory_section.cpp:524-562 | a backend without remote support is refused before anything changes; only the one list can change, and after an error it holds exactly the descriptors before the failing one |
| `RemoteLoading.RemoteSection.LoadRemoteData` | src/infra/nixl_memory_section.cpp:564-596 | reading and loading entry by entry reaches the section, or the first error, of the two-phase specification, for every blob that does not index out of range; after an error the section holds the entries before the failing one and the descriptors of that one up to the refused one |
| `RemoteLoading.RemoteSection.LoadNext` | src/infra/nixl_memory_section.cpp:574-594 | one round on the map in place: one entry is read and loaded, or its error is the error of the whole load |
| `RemoteLoading.LoadBlobStep` | src/infra/nixl_memory_section.cpp:574-594 | one round of reading and loading: which error each malformed or unloadable entry gives, that unknown backends are skipped whatever their memory type, and that a foreign memory type counts only once the backend takes remote metadata |
| `RemoteLoading.OutOfRangeIff` | src/infra/nixl_memory_section.cpp:56-64 | loading indexes `memToBackend` out of range if and only if an entry of a known, remote-capable backend has the code of no memory type and everything before it loads |
| `RemoteLoading.OutOfRangeClosed` | src/infra/nixl_memory_section.cpp:56-64 | the same without the loader: behind entries that the backends accept, the first stray entry is reached if and only if those before it agree, list by list, with what is there and with each other about the metadata of every range |
| `RemoteLoading.ForeignCodeExample` | src/infra/nixl_memory_section.cpp:56-64 | one entry with the code 5 for a known backend is enough |
| `RemoteLoading.ReadsAreEntries` | src/infra/nixl_memory_section.cpp:427-457 | blobs that a section map wrote never do, and load as their entries do |
| `MetadataExchange.LocalToRemote` | src/infra/nixl_memory_section.cpp:427-596 | from one agent's section map, whose written lists repeat no range, through bytes to another agent: every list of a shared, remote-capable backend has the same descriptors and public metadata in the same order, and nothing else is there |
| `MetadataExchange.LocalToRemoteIff` | src/infra/nixl_memory_section.cpp:427-596 | the same for any section map, repeated ranges included: the other agent takes the blob if and only if no written list is empty and no taken one holds a range twice with different metadata, and every list then arrives with each of its ranges once, in order, and nothing else |
| `MetadataExchange.PublicDataArrives` | src/infra/nixl_memory_section.cpp:427-596 | whoever takes the blob holds for every section of a shared backend its range with the backend's public data of the metadata registered for that range, loaded from exactly that, and nothing else |
| `MetadataExchange.OneEntryPerKey` | src/infra/nixl_memory_section.cpp:427-457 | the serialized entries have distinct keys when backend names are distinct |
| `MetadataExchange.EntryFor` | src/infra/nixl_memory_section.cpp:439-454 | every remote-capable list is written |
| `MetadataExchange.EntryFrom` | src/infra/nixl_memory_section.cpp:439-454 | every entry was written for a remote-capable list of the map |
| `MetadataExchange.PartialFirst` | src/infra/nixl_memory_section.cpp:464-508 | on the bytes that are sent: a remote section that takes the full blob takes a partial one before it, and the full one then leaves it as it would have alone |
| `MetadataExchange.RegisteredIsServed` | src/core/nixl_agent.cpp:1196-1217 | for an agent that has loaded another agent's blob, a backend serves a pair of lists exactly when the initiator registered the local one with it and the other agent registered the remote one with its backend of that name |
| `MetadataWorker.ReachableInv` | src/core/nixl_metadata_worker.cpp:44-184 | in every interleaving of clients and loop: IDLE means no thread and an empty queue, STOPPING has exactly one owner, executed, in-hand and queued tasks concatenate to the enqueue history, every submitted task is accounted for once, and whoever holds `mutex_` has its critical section ahead |
| `MetadataWorker.PhasesKept` | src/core/nixl_metadata_worker.cpp:44-101 | every step keeps the relation of state, thread, queue and owning stop |
| `MetadataWorker.HistoryKept` | src/core/nixl_metadata_worker.cpp:122-139 | every step keeps executed + in hand + queued equal to the enqueue history, hence submission order |
| `MetadataWorker.ExclusiveKept` | src/core/nixl_metadata_worker.cpp:141-155 | every step keeps the task mutex with the one thread that is running a task or the poll |
| `MetadataWorker.AccountsKept` | src/core/nixl_metadata_worker.cpp:103-120 | every step keeps each submitted task in exactly one of: enqueued, being run inline, run inline |
| `MetadataWorker.StopMeansDone` | src/core/nixl_metadata_worker.h:69-75 | whenever a stop returns, owner or not, the worker is idle, the queue is empty, everything enqueued has run in order, and every submitted task has run exactly once unless its submitter is just running it |
| `MetadataWorker.NeverTwice` | src/core/nixl_metadata_worker.h:77-82 | no task ever runs twice, and only submitted tasks run |
| `MetadataWorker.SubmitGoes` | src/core/nixl_metadata_worker.cpp:103-120 | a client that submits to a RUNNING worker leaves at once with its task last in the queue; otherwise the queue is left alone and the client has the task in hand |
| `MetadataWorker.SubmissionOrder` | src/core/nixl_metadata_worker.cpp:103-139 | over every run: what the worker has run, has in hand and has queued are exactly the tasks submitted while it was RUNNING or by itself, in the order of their submission, and callers run exactly the others |
| `MetadataWorker.PollBetween` | src/core/nixl_metadata_worker.cpp:175-179 | a pass whose time budget ran out polls, or finds nothing to poll, before the worker takes another task |
| `MetadataWorker.OneAtATime` | src/core/nixl_metadata_worker.h:116-119 | at most one thread runs a task or the poll |
| `MetadataWorker.ShutdownShrinks` | src/core/nixl_metadata_worker.cpp:157-184 | during shutdown every step of the loop and the join brings the end nearer, and only a task that submits another takes it further away |
| `MetadataWorker.StopCanMissIdle` | src/core/nixl_metadata_worker.cpp:81-86 | a run in which a second stop still waits while the worker is RUNNING again |
| `MetadataWorker.CallReturnsIff` | src/core/nixl_metadata_worker.cpp:74-120 | a call of stop or submit can still be brought to its end without a further stop if and only if it is not a stop that waits for IDLE while the worker is RUNNING again |
| `MetadataWorker.ShutdownEnds` | src/core/nixl_metadata_worker.cpp:74-101 | from every state with a shutdown in progress some run of worker, inline submitters and owner leads to IDLE |
| `MetadataWorker.CallReturns` | src/core/nixl_metadata_worker.cpp:74-120 | the run that brings such a call to its end |
| `MetadataWorker.FreeMutex` | src/core/nixl_metadata_worker.h:85-87 | whoever holds `mutex_` can always give it back in one step |
| `MetadataWorker.LockOrder` | src/core/nixl_metadata_worker.h:116-119 | a thread that waits for `taskMutex_` holds neither lock |
| `MetadataWorker.MutexHeld` | src/core/nixl_metadata_worker.cpp:103-120 | `mutex_` stays with the thread that took it until its critical section is done, and is free then |
| `MetadataWorker.RunningLasts` | src/core/nixl_metadata_worker.cpp:81-86 | RUNNING ends only by a call of stop, and until then no waiting stop wakes up |
| `EtcdBarrier.ReachableInv` | benchmark/kvbench/runtime/etcd_rt.py:149-210 | in every interleaving of any number of ranks, groups and rounds, a positive key value k of a round means exactly the first k sorted ranks of the group have arrived; 0 means all have, and only then has any rank left |
| `EtcdBarrier.InvKept` | benchmark/kvbench/runtime/etcd_rt.py:149-210 | every entry and every poll keeps that meaning of all keys |
| `EtcdBarrier.BarrierSafe` | benchmark/kvbench/runtime/etcd_rt.py:149-210 | a rank that has left round j of a group implies every rank of the group has entered round j |
| `EtcdBarrier.RoundsApart` | benchmark/kvbench/runtime/etcd_rt.py:149-210 | no rank of a group is ever more than one round ahead of another, and one that is not inside a round of the group is ahead of none |
| `EtcdBarrier.BarrierProgress` | benchmark/kvbench/runtime/etcd_rt.py:167-210 | once all ranks have entered a round that some have not left, some rank of it has a poll that brings the round nearer its end |
| `EtcdBarrier.RemainingNeverGrows` | benchmark/kvbench/runtime/etcd_rt.py:149-210 | no step of any rank takes a round further from its end |
| `EtcdCollectives.CollectivesAgree` | benchmark/kvbench/runtime/etcd_rt.py:218-339 | for any number of ranks and any common sequence of collectives, in every interleaving: a gathered list holds at place d what rank d passed, an all-to-all at place q what rank q sent here, and an all-reduce is the reduction of all inputs, characterised column by column (see `Reduction.ReduceIs`) |
| `Reduction.ReduceIs` | benchmark/kvbench/runtime/etcd_rt.py:311-320 | MIN is an entry of its column and at most every other, MAX the dual; SUM is the last of the running totals that start with the first row and add one row at a time; as many times AVG as there are rows is SUM |
| `Reduction.ReductionUnique` | benchmark/kvbench/runtime/etcd_rt.py:311-320 | no two vectors meet that description for the same rows |
| `Reduction.SumGrows` | benchmark/kvbench/runtime/etcd_rt.py:311-312 | the sum of one row is that row, and one more row adds its entry in every column |
| `Reduction.ReducePermuted` | benchmark/kvbench/runtime/etcd_rt.py:311-320 | the order of the ranks does not change any of the reductions |
| `EtcdCollectives.ReadsNeverWait` | benchmark/kvbench/runtime/etcd_rt.py:218-339 | every read after a barrier finds its key in the store |
| `EtcdProgress.CollectivesProgress` | benchmark/kvbench/runtime/etcd_rt.py:218-339 | while a rank has calls left, some step of some rank leaves less to do |
| `EtcdProgress.StepShrinks` | benchmark/kvbench/runtime/etcd_rt.py:218-339 | every step that changes the state, of any rank, leaves less to do, and never less than nothing |
| `EtcdCollectives.ReachableInv` | benchmark/kvbench/runtime/etcd_rt.py:218-339 | progress of all ranks, what they have read and what the store holds fit together in every reachable state |
| `EtcdCollectives.ActStep` | benchmark/kvbench/runtime/etcd_rt.py:218-339 | a put or get of any rank keeps that invariant |
| `EtcdCollectives.EnterStep` | benchmark/kvbench/runtime/etcd_rt.py:149-165 | entering the barrier between two stages keeps it |
| `EtcdCollectives.PollStep` | benchmark/kvbench/runtime/etcd_rt.py:167-210 | polling the barrier keeps it |
| `EtcdCollectives.FinishStep` | benchmark/kvbench/runtime/etcd_rt.py:218-339 | returning from a collective keeps it |
| `EtcdCollectives.ReadPresent` | benchmark/kvbench/runtime/etcd_rt.py:230-246 | a rank past the barrier reads what the writer meant, because the barrier shows that the writer is past its put |
| `EtcdCollectives.KeyUnique` | benchmark/kvbench/runtime/etcd_rt.py:218-310 | keys of different calls or slots are different |
| `EtcdKeys.KeyTextUnique` | benchmark/kvbench/runtime/etcd_rt.py:226-310 | different keys are formatted to different texts |
| `EtcdCollectives.WantedIsExpected` | benchmark/kvbench/runtime/etcd_rt.py:218-339 | the reads of the last stage in order are the result of the collective |
| `EtcdCollectives.ReducedRight` | benchmark/kvbench/runtime/etcd_rt.py:279-339 | what the root computes from the values it read is the column-wise reduction of all inputs |
| `XferRequest.XferReqH.Post` | src/core/nixl_agent.cpp:1309-1482 | an expired request never reaches the backend; a transfer in progress is asked about exactly once, the backend's answer becomes the status and its end is recorded, and the post is refused if it goes on or was disconnected; otherwise it is a fresh post |
| `XferRequest.XferReqH.PostFresh` | src/core/nixl_agent.cpp:1391-1482 | refused exactly for a notification the backend cannot send; otherwise one post reaches the backend with the notification in force, its answer is the status, and a post that ends at once is recorded as completed or failed accordingly |
| `XferRequest.XferReqH.GetStatus` | src/core/nixl_agent.cpp:1484-1523 | a settled status is returned unchanged, one in progress is the backend's next answer, and an expired request in progress is not asked about |
| `XferRequest.XferReqH.Release` | src/core/nixl_agent.cpp:1567-1616 | a transfer in progress is asked about once; if it goes on and the backend refuses to cancel it, the request stays; otherwise the request is gone after one call of releaseReqH, a cancelled transfer is recorded as failed, and the handle is released exactly if the backend accepted that call |
| `XferRequest.XferReqH.Check` | src/core/nixl_agent.cpp:1360-1390 | one question to the backend, whose answer becomes the status; success is recorded as a completion and an error as a failure |
| `XferRequest.RunRequest` | src/core/nixl_agent.cpp:1309-1616 | any run of posts, polls and releases is such a run, and keeps all those accounts: gone if and only if the last operation is a release that answers success, one terminal event per post, and how often the backend was asked, posted to and asked to release |
| `XferRequest.RunReleases` | src/core/nixl_agent.cpp:1567-1616 | along every run: a request is gone exactly by a release that answers success, every earlier release was refused, releaseReqH was called once for each of them and once more, and its last answer alone says if the handle was released |
| `XferRequest.RunCalls` | src/core/nixl_agent.cpp:1309-1616 | along every run: the backend is asked about a transfer once by every unexpired operation that finds one in progress and never otherwise, and it is handed exactly the posts that are neither expired nor held up nor ask for a notification it cannot send, each with the notification that was last given |
| `XferRequest.RunEvents` | src/core/nixl_agent.cpp:1360-1390 | along every run: completions are the successes that posts and checks were answered, failures their errors and the one cancelled transfer |
| `XferRequest.RunBalanced` | src/core/nixl_agent.cpp:1309-1616 | along every run: every post has exactly one terminal event, except the one in progress |
| `XferRequest.EndNoticed` | src/core/nixl_agent.cpp:1498-1517 | whatever the backend would answer next about a transfer in progress is what the next unexpired status call answers and records, whatever expired calls come between |
| `XferRequest.IgnoredRefusal` | src/core/transfer_request.h:66-70 | a release that answers success although the backend refused the destructor's call and keeps the handle |
| `XferRequest.XferReqH.constructor` | src/core/transfer_request.h:49-56 | a new request balances with an unposted handle |
| `Generations.PostIsCurrent` | src/core/nixl_agent.cpp:1347-1358 | over every run, a request reaches the backend only if the section it was made from is the current one of its agent, and then every section whose metadata it carries is still in its list |
| `Generations.PostsUntilDropped` | src/core/nixl_agent.cpp:1347-1358 | a request that can post goes on to be able to, through any steps that neither release it nor drop its remote |
| `Generations.MadeThenReleased` | src/core/nixl_agent.cpp:1567-1616 | a request can post once it is made or created, and not after its release |
| `Generations.HandleLife` | src/core/nixl_agent.cpp:2025-2048 | one run through it all: a request made of a prepared list can post, stays expired after its remote was invalidated and loaded again, and a new one can post until it is released |
| `Generations.InvalidatedNeverPosts` | src/core/nixl_agent.cpp:2025-2048 | after invalidation, or a failed load, every list and request made before stays expired for ever, even if the same name is loaded again |
| `Generations.ReloadKeepsHandles` | src/core/nixl_agent.cpp:2093-2109 | a reload that succeeds keeps every section object, every section of every list with its metadata, and which requests can post |
| `Generations.LoadKeeps` | src/infra/nixl_memory_section.cpp:564-596 | a load that succeeds keeps every section of every list, with its metadata |
| `Generations.LoadBrings` | src/core/nixl_agent.cpp:2093-2109 | in every reachable state, after a load that succeeds the remote has a living section in which every descriptor of a known backend in the blob stands with its own metadata |
| `Generations.ExpiredForever` | src/core/transfer_request.h:41-43 | an expired reference never comes back to life |
| `Generations.ReachableInv` | src/core/nixl_agent.cpp:1041-1051 | every reference in a handle is current with its metadata loaded, or expired |
| `Generations.RefKept` | src/core/transfer_request.h:123-135 | every step keeps references current-and-loaded or expired, and expired ones expired |
| `Generations.InvKept` | src/core/nixl_agent.cpp:1041-1051 | every step keeps that of all lists and requests, new ones included |

## Left out

- Sockets, etcd gRPC, the TCPStore client and P2P framing: input and output over libraries that are not part of this model.
- Plugin loading, metadata routing, telemetry, tracing, logging, and the Python and Rust bindings: single-branch decisions or thin wrappers.
- Connection info (`loadConnInfo`, `remoteBackends_`): simple maps per backend name.
- How the candidate backends are collected (`queryBackends`, `extra_params`): the candidates are given, and every call goes through them in an order of its own; a hint that names fewer backends is a shorter list of candidates.
- The agent's own name as a remote: its loopback section outlives deregistration, so generation safety is stated for other agents.
- Barrier time-outs, start-up wipe, `destroy_dist`, pickling, collisions of the group hash: time-outs abort a run; pickling is the identity here.
- Rounding of floating-point sums in `all_reduce`: modelled over reals.
- Costs, allocation and moves of elements: lists are values of sequence type; the in-place merge is on an array.
- A worker thread that ends because a task throws: exceptions are logged inside the task's step.
- SectionList.Sort: stands for `std::sort`, which leaves the order of equal keys open; so does everything built on it.
- MetadataBlob.ListRoundTrip: for registration lists, the kind that is loaded; other descriptor kinds differ only in the tag.
- MetadataExchange.LocalToRemote: for section maps whose written lists repeat no range, since only those arrive unchanged; `MetadataExchange.LocalToRemoteIff` is the statement for all of them.
