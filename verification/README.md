# Models of a Bitcoin-derived node

Dafny models of the state-keeping and arithmetic cores of the node, and proofs of what they
promise. Each part has a simple specification; the code's fast form, with its loops, buffers and
objects, is proved to agree with it on every input or in every run.

- **Coins cache stack** (`Coins`, `CoinsRefinement`, `CoinsRuns`, `BindRecords`, `BalanceMerge`,
  `CoinsView`): write-back caches with DIRTY, FRESH and UNBIND flags refine a flat pair of unspent
  coins and bind records.
- **Address manager** (`AddrManModel`, `AddrManInvariant`, `AddrManCalls`, `AddrManRuns`,
  `AddrManEffects`, `AddrManLoops`, `AddrManCheck`, `AddrMan`, `AddrManSerialize`, `AddrManStream`):
  five redundant structures stay consistent, the self-check says so, the stream form loses nothing, and
  any stream without repeated addresses is read into a consistent state.
- **Check queue** (`CheckQueue`, `CheckQueueObject`): a master and any number of workers, one step
  per critical section, in every interleaving.
- **Partial Merkle trees** (`Merkle`, `MerkleRoundTrip`, `MerkleSize`, `MerkleLevels`,
  `PartialMerkleTree`): soundness of extraction up to a collision in hand, the exact condition of the
  round trip, sizes (BIP 37, "Partial Merkle branch format"), and the block's own root computation.
- **Cuckoo cache** (`Cuckoo`, `CuckooCache`), **rolling bloom filter** (`Bloom`,
  `RollingBloomFilter`), **compact blocks** (`Compact`, `CompactBlocks`; BIP 152), **block index**
  (`Chain`, `SkipWalk`), **fixed-width integers** (`Limbs`, `LimbShifts`, `BaseUint`) and **Base58** (`Base58`,
  `Base58Codec`).
- `Wrappers`, `Powers` and `FastRange` hold what several parts share.

Hash functions, keys, clocks, random draws and chain parameters are parameters of any value within
their range; random choices are arbitrary. `dafny verify dfyconfig.toml` checks everything.

Where code and comments disagree the code is modelled, with the exact condition under which the
promise is kept and an input for which it is not: the cuckoo cache's sparing of the element just put
in (`Cuckoo.SwapsMoveOn`, `Cuckoo.StuckInsert`), the bound on flag bits of a partial tree
(`MerkleRoundTrip.FlagBitsBound`, `MerkleRoundTrip.FlagBitsExceed`) and on its size
(`MerkleSize.SizeBound`, `MerkleSize.SizeExceeds`), and the "no effect" of spending a spent coin
(`CoinsRefinement.SpendSpentIff`, `CoinsRefinement.SpendTwice`). The cuckoo cache's first victim is
always at the second location, where the comment says the first (`Cuckoo.FirstVictim`).

The premises of the coins results are those of the callers: the base changes only through flushes,
`AddCoin` without overwriting is used only where the base shows nothing or the entry is dirty, and
`SpendCoin` is used on coins that are unspent in the view.

## Model

| member | source | states |
|---|---|---|
| `CoinsRuns.RunRefines` | src/coins.cpp:80-333 | through any run of adding, spending, fetching, uncaching, flushing, pushing and popping caches, every level of the stack shows exactly its flat store, and no flush throws or asserts |
| `CoinsRuns.StepRefines` | src/coins.cpp:80-210 | one step of the same, with the add call throwing exactly when the flat store holds an unspent coin there |
| `CoinsRuns.ThrowsWhenUnspent` | src/coins.cpp:117-120 | within the callers' premises an addition throws if and only if the coin is unspent in the view, though only the cache's own entry is looked at |
| `CoinsRuns.MaintainShows` | src/coins.cpp:600-616 | fetching, uncaching or flushing at any depth keeps the invariant and what every level shows, except that a flush gives the level below exactly the view of the level above |
| `CoinsRuns.RunConsistent` | src/coins.cpp:558-569 | in every reachable stack over a consistent base, a record reported valid is an unspent bind coin with that height, account and id, at every level |
| `CoinsRefinement.FetchKeeps` | src/coins.cpp:80-105 | fetching caches a clean copy at every level, keeps the invariant and changes nothing that shows |
| `CoinsRefinement.FetchCopies` | src/coins.cpp:80-105 | a fetched coin is copied, clean, into every level it passes through and no further; one that does not show changes nothing at any level |
| `CoinsRefinement.UncacheKeeps` | src/coins.cpp:607-616 | dropping a clean entry keeps the invariant and changes nothing that shows |
| `CoinsRefinement.AddShows` | src/coins.cpp:107-145 | adding a coin changes what shows exactly as adding to a flat store does |
| `CoinsRefinement.AddKeepsIff` | src/coins.cpp:107-145 | an addition that does not throw keeps the FRESH invariant if and only if the caller's premise holds: overwriting, a bind coin, an unspendable script, an entry already cached, or nothing below |
| `CoinsRefinement.SpendShows` | src/coins.cpp:187-210 | spending a coin that is unspent in the view changes what shows exactly as spending in a flat store does, on all three paths |
| `CoinsRefinement.SpendLeaves` | src/coins.cpp:187-210 | spending an unspent coin removes it; a bind coin at or above the unbind height leaves its record, now invalid, unless it is a rollback; no other record or coin is left or touched |
| `CoinsRefinement.AddLeaves` | src/coins.cpp:107-145 | an added coin shows under the account of its script, with a valid record exactly if it is a bind coin; an unspendable one is not added |
| `CoinsRefinement.UncacheDrops` | src/coins.cpp:607-616 | exactly an entry without flags and of another account than the burn account is dropped |
| `CoinsRefinement.FreshLeavesNoTrace` | src/coins.cpp:107-333 | a coin added, flushed one level down and spent there, or spent before the flush, leaves no entry behind: what FRESH is for |
| `CoinsRefinement.FreshStays` | src/coins.cpp:288-329 | a flush over a FRESH entry keeps it FRESH unless it becomes a bind coin, and drops it if spent |
| `CoinsRefinement.FlushRefusedIff` | src/coins.cpp:243-333 | a flush throws or asserts if and only if some dirty entry is marked UNBIND but unspent, is FRESH over an unspent coin, or is a FRESH unspent bind coin unknown below |
| `CoinsRefinement.DatabaseTakesDirty` | src/txdb.cpp:355-389 | written to the database, a dirty entry replaces or removes its coin and record, and a clean one changes nothing |
| `CoinsRefinement.SpendSpentIff` | src/coins.h:458-463 | spending an already spent cached coin, promised to have no effect, has none on what shows if and only if the entry's UNBIND flag already is what this spend sets it to |
| `CoinsRefinement.SpendTwice` | src/coins.h:458-463 | an input for which it has: a bind coin spent, and spent again during a rollback, loses its invalid record |
| `CoinsRefinement.BatchNeverFails` | src/coins.cpp:264-321 | the "FRESH flag misapplied" throw and the bind and unbind asserts never fire for a child that satisfies the invariant |
| `CoinsRefinement.BatchShows` | src/coins.cpp:243-333 | after the write the parent shows exactly what the child showed over it, and satisfies the invariant |
| `CoinsRefinement.MergeFits` | src/coins.cpp:249-329 | for one outpoint, every path of the write gives the same coin and record over anything below, with flags that are still right |
| `CoinsRefinement.FlushShows` | src/coins.cpp:600-605 | a flush never fails and leaves the parent showing exactly the child's view |
| `BindRecords.OverlaySelects` | src/coins.cpp:413-498 | overlaying the cache's modified entries on the base's answer is the same as selecting from what the cache shows |
| `BindRecords.AccountQueryRestricts` | src/coins.cpp:413-498 | the per-account query for a non-zero id is the per-id query restricted to the account |
| `BindRecords.ApplyToId` | src/coins.cpp:464-494 | one modified entry, through all branches of the id query, gives what the overlay demands |
| `BindRecords.ApplyToAccount` | src/coins.cpp:418-453 | the same for the account query, including the early removal of other accounts' entries |
| `BindRecords.ApplyAllToId` | src/coins.cpp:459-498 | the loop answers the records of that id in the flat view, whatever order the entries come in |
| `BindRecords.ApplyAllToAccount` | src/coins.cpp:413-457 | the loop answers the records of that account in the flat view |
| `BindRecords.LastOf` | src/coins.cpp:540-556 | no record is higher than the one returned, nor as high with a greater outpoint; the null info exactly when there is no record |
| `BindRecords.NextAfter` | src/coins.cpp:505-538 | the least later record, or in compatible mode the greatest valid later one, by height and then outpoint, or the source when there is none |
| `BalanceMerge.HandedCounts` | src/coins.cpp:335-411 | on all four paths the map handed to the base counts, for the account, the same dirty coins and flags as writing the child into this cache would leave |
| `BalanceMerge.HandedNeverFails` | src/coins.cpp:360-406 | the merging path meets no throw and no failing assert |
| `BalanceMerge.HandDownCounts` | src/coins.cpp:335-411 | through a whole stack the database counts exactly the entries that flushing every cache would have written into it |
| `CoinsViews.SpendOne` | src/coins.cpp:192-208 | the three paths of spending one entry; what they leave showing is CoinsRefinement.SpendLeaves |
| `CoinsViews.WriteOne` | src/coins.cpp:246-329 | one entry of the batch write: fails exactly where the code throws or asserts, else merges as specified |
| `CoinsViews.WriteAll` | src/coins.cpp:243-333 | the whole loop, in any order of the entries: succeeds if and only if no entry fails, and then is the merge of the two maps |
| `CoinsViews.CopyRelevant` | src/coins.cpp:341-358 | exactly the entries whose coin the account owns, or whose pledge or retargeted pledge it receives |
| `CoinsViews.HandOn` | src/coins.cpp:335-409 | the map one cache hands to its base, on the four paths |
| `CoinsViews.CoinsView.GetCoin` | src/coins.cpp:98-105 | the coin that is unspent in the flat view, and nothing that shows changes |
| `CoinsViews.CoinsView.FetchCoin` | src/coins.cpp:80-96 | caches the base's coin; the assert that the base answers unspent coins only holds |
| `CoinsViews.CoinsView.AddCoin` | src/coins.cpp:107-145 | throws exactly when a cached unspent coin would be replaced, and otherwise updates the entry and its flags |
| `CoinsViews.CoinsView.SpendCoin` | src/coins.cpp:187-210 | returns the coin spent and updates or erases the entry |
| `CoinsViews.CoinsView.Uncache` | src/coins.cpp:607-616 | drops a clean entry unless it belongs to the burn account |
| `CoinsViews.CoinsView.BatchWrite` | src/coins.cpp:243-333 | fails exactly when an entry makes the write throw or assert; else the parent is the merge |
| `CoinsViews.CoinsView.Flush` | src/coins.cpp:600-605 | always succeeds; the emptied cache and its base both show what the cache showed before |
| `CoinsViews.CoinsView.GetBindPlotterEntries` | src/coins.cpp:459-498 | the records of that id in the flat view of the whole stack |
| `CoinsViews.CoinsView.GetAccountBindPlotterEntries` | src/coins.cpp:413-457 | the records of that account and id in the flat view of the whole stack |
| `CoinsViews.CoinsView.GetLastBindPlotterInfo` | src/coins.cpp:540-556 | the greatest record of the id in the flat view; the assert on its id holds |
| `CoinsViews.CoinsView.GetLastBindPlotterCoin` | src/coins.cpp:558-569 | the coin of the greatest record when that is valid; the three asserts hold |
| `CoinsViews.CoinsView.GetChangeBindPlotterInfo` | src/coins.cpp:505-538 | the record that succeeds the source in the flat view |
| `CoinsViews.CoinsView.GetBalance` | src/coins.cpp:335-411 | what reaches the database counts, for the account, what flushing the stack would have written |
| `AddrManInvariant.SwapKeeps` | src/addrman.cpp:92-110 | swapping two random positions keeps every condition |
| `AddrManInvariant.CreateKeeps` | src/addrman.cpp:80-90 | a created entry is the only one without a place, and everything else stays consistent |
| `AddrManInvariant.DeleteKeeps` | src/addrman.cpp:112-124 | deleting an entry without a place restores every condition |
| `AddrManCalls.ClearNewKeeps` | src/addrman.cpp:126-139 | clearing a new slot keeps every condition, deleting the entry that loses its last reference |
| `AddrManCalls.EvictKeeps` | src/addrman.cpp:160-181 | moving the tried occupant back to the new table keeps every condition |
| `AddrManCalls.MakeTriedKeeps` | src/addrman.cpp:141-187 | moving an entry to the tried table, with eviction, keeps every condition |
| `AddrManCalls.GoodKeeps` | src/addrman.cpp:189-253 | marking an address good keeps every condition, on all paths |
| `AddrManCalls.PlaceKeeps` | src/addrman.cpp:304-324 | finding a place for an entry, or dropping it, keeps every condition |
| `AddrManCalls.AddKeeps` | src/addrman.cpp:255-326 | adding an address keeps every condition, on all paths |
| `AddrManCalls.ResolveAllKeeps` | src/addrman.cpp:534-591 | resolving the pending collisions in any order keeps every condition |
| `AddrManEffects.EvictMoves` | src/addrman.cpp:160-181 | the evicted entry takes the new slot of its own source with one reference, and only the holder of that slot is affected |
| `AddrManEffects.GoodMoves` | src/addrman.cpp:141-253 | without a test, or with the tried slot free, the entry ends in its tried slot and in no new slot with its times noted, the evicted one in the new slot of its source with one reference, and nobody else changes |
| `AddrManEffects.GoodWaits` | src/addrman.cpp:236-246 | with a test and the tried slot taken, the entry only notes its times and waits as a pending collision, if fewer than ten do |
| `AddrManEffects.GoodNotes` | src/addrman.cpp:189-215 | a tried entry only notes its times; an unknown address or another port changes only the time of the last success |
| `AddrManEffects.NoteLeaves` | src/addrman.cpp:328-349 | what an attempt notes in the entry of exactly that service, and that nothing else changes; likewise for connections and services |
| `AddrManEffects.TerribleIff` | src/addrman.cpp:32-50 | which entries are terrible, in seconds and counts |
| `AddrManEffects.AtMostEight` | src/addrman.cpp:405-420 | an entry is in at most eight new buckets, and in none of them exactly when it is tried |
| `AddrManEffects.AddPlaces` | src/addrman.cpp:297-325 | an unknown address gets one reference in the bucket of its source exactly when the place is free, terrible or held by an entry with another place; a holder without another place is dropped |
| `AddrManEffects.AddRenews` | src/addrman.cpp:269-296 | a known address gains the services, takes the announced time less the penalty if its own is missing or too old, and changes nothing else, unless the sighting is news, it is not tried, has fewer than eight references and is lucky: then it gains the place its source gives it, taking it from nobody but a terrible holder |
| `AddrManEffects.ResolveOutcome` | src/addrman.cpp:536-590 | a pending id that is gone, invalid or faces a holder that connected lately is dropped and nothing else changes; one whose slot is free or whose holder failed its test takes the slot; any other waits and nothing changes |
| `AddrManRuns.GoodPersists` | src/addrman.cpp:189-253 | no filled tried slot empties, no id changes its address, and a pending collision has a filled slot |
| `AddrManRuns.AddPersists` | src/addrman.cpp:255-326 | the same for adding |
| `AddrManRuns.ResolveAllPersists` | src/addrman.cpp:534-591 | the same for resolving |
| `AddrManRuns.NoteKeeps` | src/addrman.cpp:328-349 | noting an attempt, a connection or services keeps consistency, every tried slot and every pending collision |
| `AddrManRuns.DoKeeps` | src/addrman.cpp:189-618 | the same, with consistency, for any one call: adding, marking good, noting an attempt, a connection or services, resolving, drawing, selecting |
| `AddrManRuns.DoAllKeeps` | src/addrman.cpp:189-618 | in every run after start-up the manager is consistent, a filled tried slot stays filled, and every live pending collision has a filled target |
| `AddrManCheck.CheckEntry` | src/addrman.cpp:409-430 | no code if and only if the entry fits the other structures and its times are fine; any code names a fault that the entry has |
| `AddrManCheck.CheckEntries` | src/addrman.cpp:406-431 | no code if and only if this holds of every entry, any code names a fault of some entry, and the loop collects exactly the tried ids and the reference counts of the new ones; looking up a missing name inserts it with the id 0, without a finding only that of entry 0 |
| `AddrManCheck.CheckTried` | src/addrman.cpp:438-450 | scanning the tried table finds no fault if and only if every slot holds its rightful entry, and crosses off all tried ids if and only if each sits in its slot; each code names its own fault: not a tried id or there already, wrong bucket, wrong position |
| `AddrManCheck.CheckNew` | src/addrman.cpp:452-463 | scanning the new table finds no fault and uses up all counts if and only if every slot holds a rightful entry and every reference count is exact; each code names its own fault: not a new id or found more often than it counts, wrong position, counted more often than found |
| `AddrManCheck.Check` | src/addrman.cpp:398-472 | 0 if and only if everything the check looks at holds, the times are fine and the key is set; any other code names its own fault, which is there; where names and ids are sound, 0 if and only if the manager is consistent, the times are fine and the key is set; nothing changes but inserted names |
| `AddrManCheck.ConsistentIff` | src/addrman.cpp:398-472 | consistency is exactly what the check looks at together with what it does not notice: as many names as entries, the name of entry 0, and ids below the id count |
| `AddrManCheck.StaleNamePasses` | src/addrman.cpp:422-423 | an empty manager with a name left behind passes and is not consistent |
| `AddrManCheck.MissingNamePasses` | src/addrman.cpp:422-423 | an entry 0 without its name passes, since looking up a missing name gives 0 |
| `AddrManCheck.UnknownIdPasses` | src/addrman.cpp:406-431 | an entry under an id that was never handed out passes |
| `AddrManObject.AddrMan.constructor` | src/addrman.h:456-478 | an empty manager is consistent |
| `AddrManObject.AddrMan.SwapRandom` | src/addrman.cpp:92-110 | exchanges two random positions; its asserts hold |
| `AddrManObject.AddrMan.Delete` | src/addrman.cpp:112-124 | removes an entry from all three indexes |
| `AddrManObject.AddrMan.ClearNew` | src/addrman.cpp:126-139 | the occupant loses a reference, and is deleted with its last; its assert holds |
| `AddrManObject.AddrMan.LeaveNew` | src/addrman.cpp:143-150 | the loop takes the entry out of every new bucket and brings its count to what is left |
| `AddrManObject.AddrMan.EvictFrom` | src/addrman.cpp:159-182 | the tried occupant goes back to the new table; its asserts hold |
| `AddrManObject.AddrMan.MakeTried` | src/addrman.cpp:141-187 | the entry moves to its tried slot; its asserts hold |
| `AddrManObject.AddrMan.FindBucket` | src/addrman.cpp:218-228 | from any random start, finds a bucket that holds the entry if and only if there is one |
| `AddrManObject.AddrMan.Good` | src/addrman.cpp:189-253 | the whole call, consistent before and after |
| `AddrManObject.AddrMan.Place` | src/addrman.cpp:304-324 | places the entry or deletes it |
| `AddrManObject.AddrMan.Create` | src/addrman.cpp:80-91 | the new entry is known under the next id in all three indexes, with no place yet |
| `AddrManObject.AddrMan.Add` | src/addrman.cpp:255-326 | the whole call, consistent before and after; answers whether the routable address was unknown |
| `AddrManObject.AddrMan.GetAddr` | src/addrman.cpp:475-494 | distinct, non-terrible entries, at most 2500 and at most 23% of all, and every non-terrible one when fewer than that limit come out; only the random order changes |
| `AddrManObject.AddrMan.Attempt` | src/addrman.cpp:328-349 | the exact entry notes the attempt, and a failure once per success; consistent before and after |
| `AddrManObject.AddrMan.Connected` | src/addrman.cpp:496-514 | the exact entry takes a time more than twenty minutes later; consistent before and after |
| `AddrManObject.AddrMan.SetServices` | src/addrman.cpp:516-532 | the exact entry takes the services; consistent before and after |
| `AddrManObject.AddrMan.ResolveCollisions` | src/addrman.cpp:534-591 | settles every pending collision in ascending order of ids |
| `AddrManObject.AddrMan.SelectTriedCollision` | src/addrman.cpp:593-618 | without pending ids nothing; else some pending id is chosen: a dead one is dropped and nothing returned, for a live one the answer is the entry in the tried slot it wants, which is never free |
| `AddrManSerialize.RoundTrip` | src/addrman.h:300-454 | from any consistent state, in whatever order the entries are written, reading back loses nothing: address, services, source, times, attempts, counts and table of every entry, and every slot up to the new ids; what is not stored is as in a fresh manager |
| `AddrManStream.AnyStreamConsistent` | src/addrman.h:350-454 | any stream that is long enough and has no address twice, whatever its entries and bucket indices, gives a consistent manager |
| `AddrManStream.ConsistentIffCounted` | src/addrman.h:350-454 | with no address twice, the manager read is consistent if and only if neither count is negative |
| `AddrManStream.IndexAny` | src/addrman.h:420-436 | an index out of range, to a taken place or past eight references is passed over; any other adds a reference and keeps the tables |
| `AddrManStream.PruneAny` | src/addrman.h:438-448 | pruning drops exactly the new entries without a place and keeps the rest consistent |
| `AddrManStream.OneTried` | src/addrman.h:399-418 | a tried entry takes its slot, or is lost and no longer counted when the slot is taken |
| `AddrManSerialize.CopyConsistent` | src/addrman.h:379-447 | tables that are the same up to renaming satisfy the same conditions |
| `AddrManSerialize.FitsTables` | src/addrman.h:371-377 | the counts of a consistent state never exceed the limits at which reading throws |
| `AddrManSerialize.WriteNews` | src/addrman.h:314-324 | new entries are written in order and indexed by their rank; the assert on the count holds |
| `AddrManSerialize.WriteTried` | src/addrman.h:325-333 | tried entries are written in order; the assert on the count holds |
| `AddrManSerialize.WriteBucket` | src/addrman.h:334-347 | the indices of a bucket's occupants, by position |
| `AddrManSerialize.Write` | src/addrman.h:300-348 | the whole stream |
| `AddrManSerialize.Read` | src/addrman.h:350-454 | throws exactly on oversized counts and on a stream that ends too early, else loads entries, recomputes the tables and prunes |
| `CheckQueue.WaitReturnsAll` | src/checkqueue.h:66-158 | in every interleaving, when Wait returns, its answer is whether every check added since the last Wait passes, each was taken and merged once, and nothing is left for the next round |
| `CheckQueue.SleepingMasterHasWorker` | src/checkqueue.h:76-97 | in every interleaving a sleeping master that has not been notified means that some worker holds an unfinished batch |
| `CheckQueue.NotifiedMasterReturns` | src/checkqueue.h:76-97 | in every interleaving a notified master returns when it wakes, since it is notified only when no work is left |
| `CheckQueue.RunsKeep` | src/checkqueue.h:66-124 | the invariant holds in every reachable state: the work counter is queued checks plus checks in unmerged batches, and the idle and total counters are exact |
| `CheckQueue.DoKeeps` | src/checkqueue.h:66-158 | every step of the master and of any worker keeps that invariant |
| `CheckQueue.ReturnEndsRound` | src/checkqueue.h:87-97 | the step in which Wait returns resets the round |
| `CheckQueue.RunBatchAll` | src/checkqueue.h:117-121 | a batch succeeds exactly when it started well and all its checks pass, though checks after a failure are skipped |
| `CheckQueue.BatchFits` | src/checkqueue.h:102-107 | the batch size is at least one, at most the queue, and at most the limit when that is positive |
| `CheckQueue.BatchShare` | src/checkqueue.h:102-107 | a batch is an even share of the queue among all threads and the idle ones again, within the limit and at least one |
| `CheckQueueObject.SharedQueue.Add` | src/checkqueue.h:140-152 | appends the checks and counts them; notifies a worker if there are any, and all workers if more than one |
| `CheckQueueObject.SharedQueue.BeginTurn` | src/checkqueue.h:75-86 | the clean-up of the previous batch, or the entry of a thread; the master is notified exactly when a worker finished the last check |
| `CheckQueueObject.SharedQueue.TakeTurn` | src/checkqueue.h:87-115 | waits, returns or takes a batch from the back of the queue, one by one and in bounds |
| `CheckQueueObject.SharedQueue.Execute` | src/checkqueue.h:117-121 | the loop answers whether all checks pass |
| `Merkle.Soundness` | src/merkleblock.cpp:77-162 | if extraction returns the non-zero root of a list of that length, every extracted id is the listed one at its index, indices strictly growing; or the traversal from the root, at a node where it still agrees with the tree, hashes two values other than the node's children into the node's hash |
| `Merkle.CutRefused` | src/merkleblock.cpp:131-162 | of a bundle and a shorter one, by a hash or by a byte of flag bits, at most one is accepted |
| `Merkle.NothingAppended` | src/merkleblock.cpp:151-160 | an accepted bundle is refused with a further hash, with eight further flag bits, and without its last hash |
| `Merkle.AcceptedFits` | src/merkleblock.cpp:131-150 | what is accepted lists at most 33333 ids, some hashes, no more of them than ids or flag bits; what fails those tests adds no match |
| `Merkle.ExtractSound` | src/merkleblock.cpp:77-113 | the same for one node: a traversal ending in the node's hash adds only listed ids, or hashes such a colliding pair at or below it |
| `MerkleRoundTrip.HonestNoClash` | src/merkleblock.cpp:59-113 | reading the encoder's own stream never meets such a pair |
| `Merkle.ExtractGrows` | src/merkleblock.cpp:77-113 | for every input the indices added lie inside the node and strictly grow |
| `Merkle.WidthIff` | src/merkleblock.h:65-68 | a position exists at a height exactly when its first leaf does |
| `Merkle.Halves` | src/merkleblock.cpp:47-53 | the two halves of a node cover its leaves, and the right one is missing exactly on the ragged edge |
| `MerkleRoundTrip.RoundTrip` | src/merkleblock.cpp:59-162 | what was built, packed and unpacked extracts to the root and exactly the matched ids and indices, if and only if the list is short enough and no two visited siblings have equal hashes; else the failure value is returned |
| `MerkleLevels.ComputeMerkleRoot` | src/consensus/merkle.cpp:45-63 | the loop over levels gives the root of the tree the partial trees are cut from, and reports exactly the lists with two equal neighbours on some level |
| `MerkleLevels.LevelIs` | src/merkleblock.cpp:39-56 | the levels hashed up one after the other hold, at every height, the hashes that the recursive definition gives |
| `MerkleLevels.MutatedIff` | src/consensus/merkle.cpp:45-63 | a list is reported mutated if and only if the partial tree of all its ids is refused; if it is not, none of its partial trees is |
| `MerkleLevels.EqualNeighbours` | src/consensus/merkle.cpp:49-53 | whether two hashes of a pair on the level are equal |
| `MerkleLevels.HashUp` | src/consensus/merkle.cpp:54-58 | the next level, the last hash of an odd one repeated |
| `MerkleRoundTrip.ReadsBack` | src/merkleblock.cpp:59-113 | the same for one node, anywhere in a longer stream |
| `MerkleRoundTrip.DistinctClean` | src/merkleblock.cpp:102-106 | for distinct ids, no visited siblings have equal hashes if and only if no two visited siblings show a colliding pair of children down their left edges |
| `MerkleRoundTrip.EqualHashes` | src/merkleblock.cpp:39-57 | two nodes of one height with equal hashes have equal first leaves, or two nodes on their left edges have different children that hash alike |
| `MerkleRoundTrip.Sizes` | src/merkleblock.h:36-40 | stored hashes number at most the leaves and at most one more than matches times height; flag bits number exactly twice the hashes less one plus the single-child nodes |
| `MerkleRoundTrip.FlagBitsBound` | src/merkleblock.h:47-48 | the documented bound on flag bits holds if and only if no visited node has a single child |
| `MerkleRoundTrip.FlagBitsExceed` | src/merkleblock.h:47-48 | three ids with the last matched exceed that bound |
| `MerkleSize.SizeBound` | src/merkleblock.h:31-35 | with hashes and single-child nodes counted on the mask alone: the guaranteed number of bytes is kept if and only if there are at most 65535 hashes and the single-child nodes fit in the spare bits and the bytes saved by short length prefixes |
| `MerkleSize.SizeBoundShort` | src/merkleblock.h:31-35 | for fewer than 2^16 ids it is kept if and only if the flag bits, counted on the mask, take at most 252 bytes or the single-child nodes fit in the spare bits of the last byte |
| `MerkleSize.EncodedSizes` | src/merkleblock.cpp:59-75 | the numbers of hashes and of flag bytes of an encoding are those counted on the mask, whatever the ids |
| `MerkleSize.SizeExceeds` | src/merkleblock.h:31-35 | with all of 2^k + 1 ids matched, for every k from 10, it is exceeded; 1025 ids take 33068 bytes where 33067 are promised |
| `MerkleSize.SinglesFew` | src/merkleblock.cpp:47-53 | a tree has at most one single-child node at each height |
| `MerkleRoundTrip.UnpackPacked` | src/merkleblock.h:91-104 | unpacking packed bits gives them back with cleared padding that the size check tolerates |
| `PartialMerkleTrees.TreeHeight` | src/merkleblock.cpp:120-123 | the loop finds the least height with one node |
| `PartialMerkleTrees.ParentOfMatch` | src/merkleblock.cpp:60-63 | the loop answers whether a matched id lies under the node |
| `PartialMerkleTrees.PackBits` | src/merkleblock.h:100-102 | or-ing bits into a cleared buffer puts each in its place and leaves the spare bits clear |
| `PartialMerkleTrees.UnpackBits` | src/merkleblock.h:95-97 | bit by bit, eight per byte |
| `PartialMerkleTrees.PartialMerkleTree.Of` | src/merkleblock.cpp:115-127 | the object holds the encoding of the ids and mask |
| `PartialMerkleTrees.PartialMerkleTree.TraverseAndBuild` | src/merkleblock.cpp:59-75 | appends the encoding of the node to both vectors |
| `PartialMerkleTrees.PartialMerkleTree.TraverseAndExtract` | src/merkleblock.cpp:77-113 | advances the cursors and marks the tree bad as the decoding of the node demands |
| `PartialMerkleTrees.PartialMerkleTree.ExtractMatches` | src/merkleblock.cpp:131-162 | all size checks and the traversal; the indices are appended to those handed in |
| `PartialMerkleTrees.Relay` | src/merkleblock.cpp:115-162 | build, serialize, read and extract on the objects gives the root and the matches exactly when the tree is short and clean |
| `Cuckoo.InsertConserves` | src/cuckoocache.h:392-440 | the pairs of element and epoch in the table plus the one pair that made way equal the old pairs plus the new one, and for live pairs at most one is lost |
| `Cuckoo.ChainConserves` | src/cuckoocache.h:406-440 | the same along the eviction chain, for anything counted per slot |
| `Cuckoo.PlaceLocated` | src/cuckoocache.h:392-440 | every live element stays at one of its own eight locations |
| `Cuckoo.ContainsIff` | src/cuckoocache.h:467-477 | a lookup succeeds exactly when the element is in the table at a location of its own, discardable or not |
| `Cuckoo.InsertFound` | src/cuckoocache.h:372-391 | an inserted element is found unless it is itself the one left over |
| `Cuckoo.OthersStay` | src/cuckoocache.h:387-390 | a live element stays live and found unless it is the one left over |
| `Cuckoo.AgeLive` | src/cuckoocache.h:305-311 | ageing discards exactly the old epoch, and the current one becomes the old |
| `Cuckoo.EpochRoom` | src/cuckoocache.h:289-321 | after the epoch check there is room for one more insertion within the bound |
| `Cuckoo.EveryRun` | src/cuckoocache.h:289-477 | in every run after setup the live current-epoch slots plus the counter never exceed the epoch size plus a sixteenth of it or one, and every live element is found |
| `Cuckoo.EraseStillFound` | src/cuckoocache.h:442-457 | after erasing, lookups of every element answer as before; what the erasure does is Cuckoo.EraseMarks |
| `Cuckoo.EraseMarks` | src/cuckoocache.h:462-477 | erasing makes the first slot holding the element discardable and nothing else; it no longer counts as live, and whoever may use that slot is then inserted without moving any element |
| `Cuckoo.InsertAgain` | src/cuckoocache.h:398-405 | inserting an element that is there keeps its first slot, for the current epoch, and moves nothing |
| `Cuckoo.EpochOutcome` | src/cuckoocache.h:289-321 | when epochs change, what becomes discardable, and when the next look is |
| `Cuckoo.LocsShare` | src/cuckoocache.h:243-253 | each location is its hash's share of the table, rounded down |
| `Cuckoo.SetupSizes` | src/cuckoocache.h:340-354 | at least two slots, all discardable, and an epoch of 45% of them where that product fits in 32 bits |
| `Cuckoo.SwapsMoveOn` | src/cuckoocache.h:416-438 | in every chain of evictions a swap moves the element that the swap before it put in if and only if the element moved out then has that slot again as the location after it |
| `Cuckoo.SpreadNeverSticks` | src/cuckoocache.h:416-430 | which never happens to an element with eight different locations |
| `Cuckoo.StuckInsert` | src/cuckoocache.h:340-438 | and happens in tables as setup builds them: of two elements whose hashes all agree, inserted one after the other, an even number of rounds puts the second out again, not to be found, and an odd number drives out the first |
| `Cuckoo.FirstVictim` | src/cuckoocache.h:419-430 | an insertion swaps exactly when none of the eight locations is discardable, and its first swap is at the second location, not the first as the comment says |
| `Cuckoo.ChainIsSwaps` | src/cuckoocache.h:406-439 | an eviction chain is its swaps carried out in order, after which the element in hand is left over or takes its first discardable location |
| `FastRange.ScaleOk` | src/cuckoocache.h:243-253 | the high half of the product always is an index |
| `FastRange.ScaleShare` | src/bloom.cpp:239-244 | the index is the share of the range that the hash is of all words, rounded down |
| `CuckooCache.Cache.constructor` | src/cuckoocache.h:340-353 | sizes, epoch size with its 32-bit product, and all slots discardable |
| `CuckooCache.Cache.CountInUse` | src/cuckoocache.h:295-300 | the scan counts the live slots of the current epoch |
| `CuckooCache.Cache.AgeAll` | src/cuckoocache.h:306-310 | the second scan ages every slot |
| `CuckooCache.Cache.EpochCheck` | src/cuckoocache.h:289-321 | the counter, the scan and its two outcomes |
| `CuckooCache.Cache.Evict` | src/cuckoocache.h:406-440 | the loop of rounds, in place, is the eviction chain |
| `CuckooCache.Cache.Insert` | src/cuckoocache.h:392-440 | the whole insertion |
| `CuckooCache.Cache.Contains` | src/cuckoocache.h:467-477 | the lookup and its marking |
| `Bloom.LastKeysContained` | src/bloom.h:109-110 | after any insertions since a reset, each of the last nElements keys is contained, and so is every key of the current and the two earlier generations |
| `Bloom.InsertMark` | src/bloom.cpp:246-275 | through wrap-arounds, overwritten bits and wipes, a place carries exactly the generation of the last key that has it, or is clear once that key is older than three generations |
| `Bloom.SetIffRecent` | src/bloom.cpp:246-275 | after any insertions since a reset a place is set if and only if it belongs to a key of the current generation or of the two before it |
| `Bloom.ContainedIff` | src/bloom.cpp:283-295 | a key is contained if and only if each of its places belongs to such a key |
| `Bloom.WipeMark` | src/bloom.cpp:254-262 | the masked wipe clears exactly the places of the generation about to be reused |
| `Bloom.PutAllMark` | src/bloom.cpp:266-274 | setting a key's places marks them with the generation and no others |
| `Bloom.ContainsMarks` | src/bloom.cpp:283-295 | a key is contained exactly when no place of it is clear |
| `RollingBloomFilters.WipeAll` | src/bloom.cpp:256-262 | the loop over pairs of words, in place |
| `RollingBloomFilters.PlacesFit` | src/bloom.cpp:239-270 | every place a key maps to lies inside the data |
| `RollingBloomFilters.PlacesDiffer` | src/bloom.cpp:266-270 | hashes that differ in their low six bits have different places |
| `RollingBloomFilters.EveryPlaceUsed` | src/bloom.cpp:266-270 | in a filter of at most 2^26 words every place is the place of some hash |
| `RollingBloomFilters.RollingBloomFilter.Reset` | src/bloom.cpp:303-309 | an empty filter with an empty history |
| `RollingBloomFilters.RollingBloomFilter.SetPlaces` | src/bloom.cpp:266-274 | the loop over the hash functions, in place |
| `RollingBloomFilters.RollingBloomFilter.Insert` | src/bloom.cpp:246-275 | adds the key to the history and keeps the filter true to it |
| `RollingBloomFilters.RollingBloomFilter.Contains` | src/bloom.cpp:283-295 | true if and only if every place of the key belongs to a key of the three latest generations in the history; so for each of the last nElements keys |
| `Base58.DecodeEncode` | src/base58.cpp:35-122 | decoding the text of any byte string gives the byte string |
| `Base58.EncodeDecode` | src/base58.cpp:35-122 | every text of alphabet characters decodes, and encodes back to itself |
| `Base58.DecodesIff` | src/base58.cpp:35-82 | exactly the texts of alphabet characters between blanks, up to the end or a NUL, decode |
| `Base58.DecodeBetweenBlanks` | src/base58.cpp:35-82 | blanks around a text, and anything after a NUL, make no difference to what it decodes to |
| `Base58.RebaseInverse` | src/base58.cpp:72-121 | conversion with counted leading zeroes is inverted by exchanging the bases |
| `Base58.EncodeFits` | src/base58.cpp:94 | the encoding buffer is always large enough |
| `Base58.DecodeFits` | src/base58.cpp:48 | the decoding buffer is always large enough |
| `Base58.DigitSymbol` | src/base58.cpp:14-33 | the decoding table inverts the alphabet, whose characters are not blanks |
| `Base58.SymbolDigit` | src/base58.cpp:14-33 | the alphabet inverts the decoding table |
| `Base58.AlphabetIs` | src/base58.cpp:14-33 | exactly the digits and letters but 0, I, O and l are in the alphabet, and their values grow with them |
| `Base58Codec.MulAdd` | src/base58.cpp:57-64 | the carry loop multiplies the buffer and adds a digit, touching only as far as it must; no carry is left |
| `Base58Codec.Skip` | src/base58.cpp:72-80 | what follows the leading zeroes are the digits of the number |
| `Base58Codec.Encode` | src/base58.cpp:84-122 | the whole encoder |
| `Base58Codec.ReadDigits` | src/base58.cpp:52-66 | reads to the next blank or the end, stopping at the first character outside the alphabet |
| `Base58Codec.Decode` | src/base58.cpp:35-82 | the whole decoder |
| `BaseUints.BaseUint.AddAssign` | src/arith_uint256.h:134-144 | the sum modulo 2 to the width, also when both operands are the same object |
| `BaseUints.BaseUint.Increment` | src/arith_uint256.h:173-180 | one more modulo 2 to the width, stopping at the first limb that does not wrap |
| `BaseUints.BaseUint.Negated` | src/arith_uint256.h:76-83 | the negation modulo 2 to the width |
| `BaseUints.BaseUint.SubAssign` | src/arith_uint256.h:146-150 | the difference modulo 2 to the width |
| `BaseUints.BaseUint.MulAssign32` | src/arith_uint256.cpp:56-66 | the product with a 32-bit number modulo 2 to the width |
| `BaseUints.BaseUint.MulAssign` | src/arith_uint256.cpp:68-82 | the product modulo 2 to the width, with every intermediate in 64 bits |
| `BaseUints.BaseUint.ShiftLeft` | src/arith_uint256.cpp:22-37 | multiplication by a power of two modulo 2 to the width, for every shift |
| `BaseUints.BaseUint.ShiftRight` | src/arith_uint256.cpp:39-54 | the floor quotient by a power of two, for every shift |
| `BaseUints.BaseUint.CompareTo` | src/arith_uint256.cpp:126-136 | the sign of the comparison of the numbers |
| `BaseUints.BaseUint.Bits` | src/arith_uint256.cpp:188-201 | the number of bits: zero for zero, else the powers of two that enclose the number |
| `BaseUints.BaseUint.Assign64` | src/arith_uint256.h:87-94 | the number assigned, with all higher limbs cleared |
| `BaseUints.BaseUint.DivAssign` | src/arith_uint256.cpp:84-108 | fails, zeroed, exactly for a zero divisor; else the floor quotient |
| `BaseUints.BaseUint.Reduce` | src/arith_uint256.cpp:98-106 | shift and subtract leaves the quotient in place and the remainder in the other number, and no set bit leaves the divisor |
| `BaseUints.Aligned` | src/arith_uint256.cpp:96-97 | aligning the divisor shifts no set bit out and takes it past half the dividend |
| `LimbShifts.ShlFinish` | src/arith_uint256.cpp:22-37 | the limbs written by all rounds of the left shift are the shifted number |
| `LimbShifts.ShrFinish` | src/arith_uint256.cpp:39-54 | the limbs written by all rounds of the right shift are the quotient |
| `LimbShifts.OrDisjoint` | src/arith_uint256.cpp:31-34 | or-ing parts that share no bit adds them |
| `Limbs.RowEnd` | src/arith_uint256.cpp:72-79 | a row of the long multiplication adds its partial product up to a multiple of the modulus |
| `Chain.SkipsBack` | src/chain.cpp:112-124 | the skip height of a positive height is strictly lower |
| `Chain.InvertAt` | src/chain.cpp:112-113 | clearing the lowest one of 2^k times an odd number leaves 2^k times the even number below |
| `Chain.SkipsEven` | src/chain.cpp:115-124 | an even height skips to itself without its lowest one |
| `Chain.SkipsOdd` | src/chain.cpp:115-124 | an odd height skips to one more than the even height below it without its two lowest ones |
| `Chain.SkipsPower` | src/chain.cpp:115-124 | one more than a power of two skips to height 1 |
| `Chain.BlockIndex.GetAncestor` | src/chain.cpp:126-151 | over skip pointers or parents, the block the plain walk over parents reaches, or null out of range; where every block has its skip pointer, in exactly the rounds counted on heights |
| `SkipWalk.RoundsBound` | src/chain.cpp:112-151 | a walk between any two heights below 2^b takes at most WalkRounds(b - 1) rounds, itself at most (b^2 + 8b + 3) / 4 |
| `SkipWalk.BoundReached` | src/chain.cpp:112-151 | WalkRounds(b - 1) is exact for every b from 12: the walk from 2^b - 8 to height 2 takes that many |
| `SkipWalk.At18Bits` | src/chain.cpp:118-123 | the number the comment gives: below 2^18 blocks at most 110 rounds, and 110 in one case |
| `SkipWalk.Quadratic` | src/chain.cpp:112-151 | the growth is quadratic: the walk from 2^p - 1 to height 2 takes at least p^2 / 4 rounds, so no multiple of the number of bits is enough |
| `SkipWalk.InBlock` | src/chain.cpp:126-151 | from the last height of a block of 2^p heights to any height in it takes at most BlockRounds(p) rounds, which Quadratic puts at (p^2 + 6p) / 4 at most |
| `Chain.BlockIndex.BuildSkip` | src/chain.cpp:189-193 | the skip pointer is the ancestor at the skip height, and the block joins a tree whose skip pointers all are right |
| `Chain.Extend` | src/chain.cpp:189-193 | every tree built block by block is sound, and each block above a genesis block has its skip pointer |
| `Chain.ActiveChain.SetTip` | src/chain.cpp:19-29 | in spite of its early stop, exactly the path to the tip |
| `Chain.ActiveChain.FindFork` | src/chain.cpp:93-102 | the highest block of the chain that is an ancestor, sharing everything below and nothing above |
| `Chain.ActiveChain.GetLocator` | src/chain.cpp:31-91 | the ancestors at exactly the heights that the steps give, falling to genesis and listing it once, at most eleven more than the bits of the height; below the last checkpoint the same in batches of 2000 headers |
| `Chain.LocatorHeights` | src/chain.cpp:66-86 | the heights listed: one by one at first, then in steps of 1, 2, 4 and so on, down to genesis |
| `Chain.StepFits` | src/chain.cpp:62-86 | below height 2^30 the doubling step stays within 32 bits, in both modes |
| `Chain.LastCommonAncestor` | src/chain.cpp:237-254 | the highest common ancestor; its assert holds even for different genesis blocks, when null is returned |
| `CompactBlocks.Announce` | src/blockencodings.cpp:19-29 | the sender's message: the coinbase outright, a short id for every other transaction |
| `CompactBlocks.LayOut` | src/blockencodings.cpp:57-75 | accepts exactly the messages whose prefilled transactions all fit, and then each is in its place, in bounds, and nothing else |
| `CompactBlocks.NextEmpty` | src/blockencodings.cpp:84-85 | the scan for the next empty slot stays in bounds |
| `CompactBlocks.IndexIds` | src/blockencodings.cpp:77-103 | succeeds exactly when no bucket is crowded and no short id repeats, and then maps each id to the empty slot of its rank |
| `CompactBlocks.Search` | src/blockencodings.cpp:105-164 | every slot without a prefilled transaction holds the entry that settles its short id among those looked at, or nothing if there is none; the search looks at one entry at least and ends after the first with which the count reaches the number of short ids |
| `CompactBlocks.SearchPools` | src/blockencodings.cpp:105-164 | memory pool, then extra transactions, each up to its exact stopping point; no transaction that alone carries a short id is missed in spite of both early exits |
| `CompactBlocks.PartiallyDownloadedBlock.InitData` | src/blockencodings.cpp:49-169 | the exact status for every message, and on success all of the above |
| `CompactBlocks.PartiallyDownloadedBlock.FillBlock` | src/blockencodings.cpp:177-209 | fills the empty slots in order; too few or too many transactions are invalid, and with too few the slots before the first that stays empty have been moved out |
| `CompactBlocks.Relay` | src/blockencodings.cpp:19-209 | sender to receiver: when the message is accepted and short ids are unambiguous, the missing transactions complete exactly the sender's list |
| `CompactBlocks.ReadIndexes` | src/blockencodings.h:42-61 | decoding in place, failing exactly when a difference or a sum leaves 16 bits |
| `CompactBlocks.WriteIndexes` | src/blockencodings.h:62-66 | the differences written |
| `Compact.Rebuilds` | src/blockencodings.cpp:177-198 | slots that agree with a block, filled with what is missing from it, give the block |
| `Compact.SoleFound` | src/blockencodings.cpp:105-164 | if exactly one entry of both pools carries a short id, the slot of that id holds its transaction |
| `Compact.SlotOffered` | src/blockencodings.cpp:110-125 | a second memory pool entry, or an extra one with another witness hash, empties the slot; any other entry leaves the settled one |
| `Compact.FilledAgree` | src/blockencodings.cpp:105-164 | when short ids are unambiguous every filled slot holds the block's own transaction |
| `Compact.MergeIff` | src/blockencodings.cpp:183-198 | filling succeeds exactly when enough transactions are handed in, and leaves over exactly the surplus |
| `Compact.EncodeDescribes` | src/blockencodings.cpp:19-29 | the sender's message describes the sender's block |
| `Compact.EncodeWellFormed` | src/blockencodings.cpp:49-75 | the sender's message is well-formed unless the block is too large or its coinbase null |
| `Compact.DiffRoundTrip` | src/blockencodings.h:55-66 | a list of 16-bit indexes survives the coding if and only if it is strictly ascending |
| `Compact.DiffBack` | src/blockencodings.h:55-66 | what decodes is ascending and encodes back to the same differences |

## Left out

- Coins: `cachedCoinsUsage`, `hashBlock`, logging, and the database behind the last cache, which is
  a flat store here; its index rules for output 0 and the null account are not modelled.
- Coins: the two kinds of bind id are one kind, with 0 as the wildcard of the account query.
- Coins: the summing of balances in the database; only what is handed to it is modelled.
- BindRecords.LastOf: assumes no record at the null outpoint, which the code uses to mean "none yet".
- BindRecords.NextAfter: assumes the same, and heights of at most 30 bits, as coins store them.
- BalanceMerge.HandDownCounts: assumes that an outpoint has one owner and receiver at every level.
- Address manager: `Select_`, `GetChance`; times are unbounded integers.
- Address manager: `Clear` during a run; it is the start of a run, since it keeps pending collisions.
- AddrManSerialize.Read: the stream is a value, whose lists are shorter than announced when it ends
  too early; older stream versions and another bucket count are not modelled, nor is the key, which is
  part of the hashes, nor the object after a throw.
- AddrManCheck.Check: works on a value of the manager, not on the object.
- Check queue: which worker is notified; any waiting thread may wake at any time.
- Check queue: `CCheckQueueControl`, which only forwards.
- Partial Merkle trees: 32-bit overflow of the tree width for lists of 2^31 ids or more, and the
  construction of a Merkle block from a bloom filter.
- Cuckoo cache: the bit packing and memory ordering of the discard flags, and the floating-point
  logarithm that gives the depth limit, which is any number.
- Rolling bloom filter: the floating-point sizing; the number of words and of hash functions is any
  positive number. A filter for zero elements, whose data would be empty, is excluded.
- Compact blocks: `extra_count`, the contents of the block check and the header; the hash map's
  bucket sizes are an arbitrary test.
- CompactBlocks.PartiallyDownloadedBlock.InitData: does not describe the object after a refusal; that no
  transaction is missed is promised for a counter that starts at zero, not for one left over from an
  earlier block.
- BaseUints.BaseUint.DivAssign: needs two limbs at least, since it assigns a 64-bit zero first.
- Fixed-width integers: `operator%`, bitwise operators, `--`, hexadecimal and floating-point forms.
- Chain.ActiveChain.GetLocator: lists the blocks, not their hashes.
- Base58: the checksummed form.
