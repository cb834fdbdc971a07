# dnbd3: models and proofs of its hard parts

dnbd3 serves read-only block devices over the network, with proxies that cache what they fetch. This
project models the parts of it whose correctness depends on interleavings, wrap-around loops, bit masks or
partial progress, and proves what they are there for. `dafny verify dfyconfig.toml` checks all of it.

Concurrent protocols are state machines: a state, one action per atomic operation or lock section, and
theorems about every state that any interleaving of any number of threads can reach (module `Runs` defines
runs and the induction over them, `Sums` the counting arguments, `Units` and `Options` what several modules
share). Code that works in place or in loops is written as methods with loops, on classes and arrays where
the program updates fields and buffers, and each method is proved against the function or relation that the
state machines and lemmas are about.

Safety over all runs does not say that anything happens. For each state machine there are therefore also
theorems about whole calls by a thread that is not disturbed, from any state the invariant allows: which steps
can be taken one after the other and exactly what they come to (`ReferenceCalls` and the modules ending in
`Effects`; `UplinkAsks` does this for one lock section, in the numbers of the protocol).

| component | modules |
|---|---|
| split reference counter of weak references | `Reference`, `ReferenceSafety`, `ReferenceOverflow`, `ReferenceCalls` |
| request queue of an uplink, its clients, its shutdown | `UplinkQueue`, `UplinkAsks`, `UplinkCode`, `UplinkRuns`, `UplinkEffects` |
| hop counts in chains and circles of proxies | `Hops` |
| cache map, and the set of blocks it stands for | `CacheBits`, `CacheMap`, `Replication`, `Coherence`, `CoherenceEffects` |
| lock-order checker | `Locks`, `LockTable`, `LocksEffects` |
| request ownership in the kernel client | `KernelRequests`, `KernelEffects`, `KernelQueues` |
| CRC-32 four bytes at a time | `Crc`, `CrcCode`, `CrcTable` |
| resumable in-place chunked decoder | `Chunked`, `ChunkedBuffer` |
| RTT checks and the hand-off of a better connection | `RttCheck`, `RttHandoff`, `RttEffects` |
| merging integrity-check queue | `Integrity`, `IntegrityCode`, `IntegrityEffects` |

## What turned out not to hold

Six expected properties are false of the code. The models keep the code as it is; each case has a concrete
run or input and the exact condition.

- `ref_get` is meant to wait while the tag of a weak reference is full, but the `continue` of its first loop
  jumps to the loop condition, so the word just reloaded is incremented without the check
  (src/server/reference.h:20-27). With 32 readers at once the tag carries into the next slot
  (`ReferenceOverflow.TagCarries`, `FaultReachable`). All runs are safe exactly if fewer than 32 threads can be
  inside `ref_get` on one weak reference (`SafeIffFewReaders`); all other results about the counter are
  proved under that bound.
- A block that the integrity checker found bad is meant to stay unavailable until it is fetched and marked
  again. `image_isComplete` scans the map without a lock and drops it later (src/server/image.c:191-221). A block
  cleared behind the scan becomes available again with the drop (`Coherence.DropLoses`), and so does one
  cleared in a map that was dropped after it was grabbed (`StaleClearLoses`). A reply that was written before
  the block was cleared and is marked afterwards (src/server/uplink.c:1058-1087) brings the bad block back
  without a new fetch (`LateMarkLoses`). `InvalidatedStaysOutExactlyIf` says for every run which steps do this:
  dropping a map that is not complete any more, clearing in one map what some image of the file serves by
  another map or by none, giving up because the map made for clearing is already gone, and marking a block of
  which some byte was not stored since the block was cleared; such a mark always belongs to a thread that
  had stored that byte before the clearing (`LateMark`).
- `findNextIncompleteHashBlock` tests for a partly filled byte before it resets its candidate at a hash-block
  border (src/server/uplink.c:945-951), so it can return the start of the hash block visited before, which is
  not mixed (`Replication.StaleExample`). `MeetsSearchExactlyIf` gives the exact condition.
- `findNextIncompleteHashBlock` is written to cope with an image without a map, but gives the reference to the
  map back all the same (src/server/uplink.c:971). The call goes through a null pointer exactly if there is no
  map (`Replication.FindNextIncompleteHashBlock`).
- A request for an integrity check can be lost: while a round runs unlocked, a request for a block it already
  passed is counted as dominated by the task being checked and then removed with it
  (`Integrity.LostRequest`). So is one for the block under way, once its check has begun or a full scan has
  judged it incomplete: if it is completed right then, the scan moves on and the block is never checked
  (`LostToScan`). A block is also passed unchecked if the file cannot be opened (`LostUnread`).
  `AskPendingExactlyIf` says exactly when a request is going to be checked, and `CheckedExactlyIf` that
  nothing is lost in a run exactly if it has no step of these kinds.
- Two values are computed in 32 bits and can wrap. A prefetch asks for three times the read, or the limit, only
  up to a read of 1431655765 bytes (src/server/uplink.c:472; `UplinkAsks.PrefetchExact`). The penalty for the
  server a connection was lost to makes another one with the same average preferable exactly for averages
  below 2147458648 microseconds or in a narrow range above 4294917296 (src/server/altservers.c:617-619;
  `RttCheck.OtherIsCheaperExactlyIf`).

## Model

| member | source | states |
|---|---|---|
| `ReferenceSafety.KeepsStep` | src/server/reference.h:17-52 | every atomic step of `ref_get`, `ref_setref`, `ref_put`, `ref_inc` by any thread keeps the full accounting invariant of counters, tags, readers, writers and owners |
| `ReferenceSafety.ReachedInv` | src/server/reference.c:20-33 | the invariant holds in every reachable state |
| `ReferenceSafety.SwapWord` | src/server/reference.c:27-31 | exchanging the word turns exactly the captured tag's worth of readers into references the writer has to settle |
| `ReferenceSafety.RoomForTag` | src/server/reftypes.h:13-16 | while a thread has yet to take its tag, the tag is below 31 |
| `ReferenceSafety.LoopTopOk` | src/server/reference.h:20-27 | below 32 readers the first loop never meets a full tag, so never takes the unchecked path |
| `ReferenceSafety.ReferencedIffCounted` | src/server/reference.h:29-37 | an object is reachable through an owner, a word, a reader or a writer exactly if its account is positive |
| `ReferenceSafety.FreedExactlyWhenUnreferenced` | src/server/reference.h:47-52 | in every run the free function ran at most once, and exactly if nobody can reach the object any more; no counter is touched outside its object's life |
| `ReferenceSafety.ExactAccounts` | src/server/reference.c:24-31 | every live counter equals 33 per installation plus readers past their count, unsettled tags and owners; every tag equals the number of readers holding one |
| `ReferenceOverflow.TagCarries` | src/server/reference.h:23-27 | with 32 readers the tag is incremented into the next slot |
| `ReferenceOverflow.LeavesUncounted` | src/server/reference.h:33-37 | that reader returns a reference no counter knows of |
| `ReferenceOverflow.FaultReachable` | src/server/reference.h:28-31 | then a counter that is no object's is touched |
| `ReferenceOverflow.SafeIffFewReaders` | src/server/reference.h:17-40 | all runs are free of such faults if and only if fewer than 32 threads read one weak reference at once |
| `ReferenceOverflow.SlotInsideObject` | src/server/reftypes.h:10-23 | the aligned slot lies inside its object behind the counter, and no tag below 32 leaves it |
| `ReferenceOverflow.SlotsApart` | src/server/reftypes.h:18-23 | objects that do not overlap have different slots, and the address right behind a slot is nobody's slot |
| `ReferenceCalls.SetInstalls` | src/server/reference.c:20-33 | from any such state, an undisturbed `ref_setref` ends with exactly the new object, or NULL, in the weak reference; the new object counts 33 more, the old one 33 less but for one per reader that took its tag over; nothing else changed |
| `ReferenceCalls.SetFrees` | src/server/reference.c:27-32 | and the old object was freed exactly if nothing refers to it any more |
| `ReferenceCalls.GetReturnsInstalled` | src/server/reference.h:17-40 | an undisturbed `ref_get`, whatever compare-exchanges fail spuriously, returns NULL exactly if the word is NULL, else one more reference to the object the word points at; nothing else changed |
| `ReferenceCalls.GetStepReturns` | src/server/reference.h:17-40 | whatever other threads do, `ref_get` returns NULL only having just seen NULL, and else a new reference to the very object whose tag it took |
| `ReferenceCalls.LastPutFrees` | src/server/reference.h:47-52 | when the owners give all their references back, the last `ref_put`, and none before, frees the object, exactly if no weak reference and no thread refers to it |
| `ReferenceCalls.IncIsOneMore` | src/server/reference.h:42-45 | after `ref_inc` it takes one `ref_put` more |
| `ReferenceCalls.CreatedWith` | src/server/reference.c:8-12 | an object made with c references is freed by the c-th `ref_put` and not before |
| `UplinkQueue.ExtendGrows` | src/server/uplink.c:304-322 | widening never moves the end back, stays inside the image and ends on a block border |
| `UplinkQueue.ExtendReaches` | src/server/uplink.c:304-322 | the widened range reaches the wanted length up to a block, unless the image or, in that mode, a hash block ends first |
| `UplinkQueue.WideningCovers` | src/server/uplink.c:366-387 | under any setting the parser admits (at most 2^31 - 1), the aligned request sent for an accepted read covers the whole read and stays inside the image |
| `UplinkQueue.PrefetchAdjoins` | src/server/uplink.c:463-474 | a prefetch starts at the end of the read, stays in the image, and is bounded by three times the read and by the limit |
| `UplinkQueue.FirstCovering` | src/server/uplink.c:393-404 | the first entry that covers the range, none before it does |
| `UplinkQueue.RequestKeeps` | src/server/uplink.c:366-502 | an accepted request keeps: length counter, distinct handles and addresses, aligned non-empty ranges in the image, at most 32 clients per entry, each inside its entry; entries keep their range or have newer handles; never accepted after shutdown |
| `UplinkQueue.RequestCounts` | src/server/uplink.c:490-502 | an accepted client request adds exactly its own waiter, a replication request none |
| `UplinkQueue.RemoveCounts` | src/server/uplink.c:231-247 | removing a client takes out exactly the waiters it calls back |
| `UplinkQueue.DismissedAreMine` | src/server/uplink.c:234-236 | only waiters of that client are called back |
| `UplinkQueue.RemoveKeeps` | src/server/uplink.c:233-246 | the queue stays well formed and no waiter of that client is left |
| `UplinkQueue.AllCounts` | src/server/uplink.c:177-195 | cancelling calls back exactly all waiters |
| `UplinkQueue.IndexOf` | src/server/uplink.c:1029-1032 | the first entry with the handle of the reply |
| `UplinkQueue.IndexAt` | src/server/uplink.c:1097-1099 | the entry at the remembered address if it still has that handle |
| `UplinkQueue.DropKeeps` | src/server/uplink.c:1097-1105 | unlinking keeps the queue well formed and the handle is gone from it |
| `UplinkQueue.DropCounts` | src/server/uplink.c:1097-1105 | unlinking takes out exactly the clients of that entry |
| `UplinkQueue.SentKeeps` | src/server/uplink.c:1309-1319 | changing sent flags keeps the queue well formed |
| `UplinkQueue.SentCounts` | src/server/uplink.c:783-787 | and moves no waiter |
| `UplinkQueue.DrawKeeps` | src/server/uplink.c:892 | a handle drawn for a replication request and never used by an entry does no harm |
| `UplinkAsks.RefusedExactlyIf` | src/server/uplink.c:343-457 | exactly which requests are refused: replication below full replication, after shutdown, too long, a full queue of 500, a circle, 32 clients |
| `UplinkAsks.HopsInBits` | src/server/uplink.c:359-364 | one more hop in the low six bits; a replication request has bit 7 set, or bit 6 when pretending to be a client; the other flag is as it was |
| `UplinkAsks.ReplicationStopsAtPartial` | src/server/uplink.c:343-363 | the header sent for a replication request, arriving at any other server that does not replicate in full, is refused there |
| `UplinkAsks.ExtendExact` | src/server/uplink.c:304-322 | the exact end of a widened range: the wanted length rounded up, the last 16 MiB border in hash-block mode, or the end of the image |
| `UplinkAsks.PrefetchExact` | src/server/uplink.c:463-474 | a prefetch asks for three times the read in 32 bits, or the limit, and is non-empty exactly if the read ends before the image |
| `UplinkAsks.RequestEndExact` | src/server/uplink.c:366-387 | a new entry ends on the first block border behind the read, or at the widened end for clients |
| `UplinkAsks.AcceptedLeaves` | src/server/uplink.c:393-502 | the whole effect of an accepted request: which entry it attaches to or makes, its waiter, exactly when a prefetch is put behind it, handles, length, and the headers sent, each matching its entry |
| `UplinkCode.Uplink.constructor` | src/server/uplink.c:89-100 | a new uplink has an empty queue and is not shut down |
| `UplinkCode.Uplink.FindCovering` | src/server/uplink.c:393-404 | the search loop finds the first covering entry |
| `UplinkCode.Uplink.HasRoom` | src/server/uplink.c:448-457 | walking the client list tells whether there are fewer than 32 |
| `UplinkCode.Uplink.ExtendRequest` | src/server/uplink.c:304-322 | the masking and capping in place computes `Extend`, and never moves the end of a range inside the image back |
| `UplinkCode.Uplink.RequestRange` | src/server/uplink.c:366-387 | the range computed before locking is block-aligned and covers the read |
| `UplinkCode.Uplink.Enqueue` | src/server/uplink.c:389-503 | the lock section on an open uplink attaches to an entry, queues a new one or refuses, as `Request` does; a refusal leaves the queue as it was |
| `UplinkCode.Uplink.RequestInternal` | src/server/uplink.c:338-539 | the whole call is the `Request` the results above are about; refused requests change nothing, and a well-formed queue stays well formed |
| `UplinkCode.Uplink.Dismiss` | src/server/uplink.c:235-244 | splits a client list into called back and kept |
| `UplinkCode.Uplink.RemoveEntry` | src/server/uplink.c:231-247 | the nested loops remove exactly the waiters with this data and callback, and call back exactly those |
| `UplinkCode.Uplink.CancelAllRequests` | src/server/uplink.c:177-195 | the nested loops call back every waiter once, in order, and empty the queue |
| `UplinkCode.Uplink.Find` | src/server/uplink.c:1027-1041 | the first lock section of `handleReceive` |
| `UplinkCode.Uplink.Take` | src/server/uplink.c:1094-1109 | the second lock section: unlinks the entry only if address and handle still match; it does to the uplink what that step does in the runs |
| `UplinkCode.Uplink.MarkRequestUnsent` | src/server/uplink.c:1309-1319 | clears the flag of exactly that entry |
| `UplinkCode.Uplink.ScanQueue` | src/server/uplink.c:780-811 | the buffer of 125 never overflows; the scan goes on to the end unless the flush of a full buffer fails |
| `UplinkCode.Uplink.SendQueuedRequests` | src/server/uplink.c:771-822 | every scanned entry is marked and every due header built once; a failed flush, also of the last, partial buffer, raises the problem flag, and only then is anything left unscanned |
| `UplinkCode.SentMeans` | src/server/uplink.c:783-787 | resending keeps the queue well formed, with the same entries and the same waiters |
| `UplinkCode.ResendsAll` | src/server/uplink.c:625-626 | after a switch every queued request is asked for again, in order |
| `UplinkCode.SendsDue` | src/server/uplink.c:784-795 | what goes out is exactly what was not sent yet, or everything |
| `UplinkRuns.StillFound` | src/server/uplink.c:1098 | what the receiver looked up stays true while the lock is dropped, since handles are never reused: the ABA check is sound |
| `UplinkRuns.KeepsUp` | src/server/uplink.c:366-502 | every step keeps every uplink of the image well formed |
| `UplinkRuns.KeepsConserved` | src/server/uplink.c:1096-1122 | for every kind of request, every step keeps accepted = answered + still owed |
| `UplinkRuns.KeepsCounter` | src/server/net.c:351-368 | every step keeps every client's counter equal to its requests under way |
| `UplinkRuns.ExactlyOnce` | src/server/uplink.c:338-539 | in every run, for every kind of request: accepted ones are exactly those called back once and those still owed one callback |
| `UplinkRuns.ShutdownAnswersAll` | src/server/uplink.c:147-171 | once all uplinks are gone, the multiset of callbacks is the multiset of accepted requests and all idle clients' counters are 0 |
| `UplinkRuns.RelayedCountsOutstanding` | src/server/net.c:744-760 | the 8-bit `relayedCount` always equals the client's outstanding requests, never wraps and never exceeds 251 |
| `UplinkRuns.DeliversRemoteBytes` | src/server/uplink.c:1116-1122 | every reachable queue is well formed and each data callback carries exactly the remote bytes asked for |
| `UplinkRuns.FreedEmpty` | src/server/uplink.c:197-201 | no entry is added after the cancelling pass: the queue is empty once the image no longer points to the uplink, so when it is freed |
| `UplinkEffects.ReplyReachesClients` | src/server/uplink.c:1027-1122 | from any such state, the reply to a queued request calls back every client of the entry exactly once, in order, with the bytes it asked for; the entry is gone, counters drop by exactly these calls, all else is as before |
| `UplinkEffects.AskIsQueued` | src/server/net.c:351-368 | a client's request is queued, counted and its waiter recorded exactly if the lock section takes it; else giving up restores the state |
| `UplinkEffects.OthersAreQueued` | src/server/uplink.c:287-302 | so are requests of the FUSE module and of replication |
| `UplinkEffects.LeaveFails` | src/server/uplink.c:231-247 | a client that leaves gets an error for each of its requests and has none left; nobody else's waiters are touched |
| `UplinkEffects.ShutdownFails` | src/server/uplink.c:147-171 | a shutdown gives everybody waiting an error, empties the queue, and no request is taken afterwards |
| `UplinkEffects.CleanupFails` | src/server/uplink.c:740-766 | the same when the thread of the uplink closes it, which ends with the uplink freed |
| `UplinkEffects.CleanupAfterShutdown` | src/server/uplink.c:747-766 | after a shutdown the thread only ends |
| `UplinkEffects.InitInstalls` | src/server/uplink.c:67-131 | a new uplink is installed with an empty queue |
| `UplinkEffects.DrawAndMark` | src/server/uplink.c:892 | drawing a handle and changing a sent flag do just that |
| `Hops.AddHop` | src/server/uplink.c:256-259 | below the limit adding a hop never carries into the flag bits |
| `Hops.RelaysWhat` | src/server/uplink.c:359-364 | a proxy relays a request with one more hop and the same flags, and adds a flagged prefetch only to one without flags |
| `Hops.RelaysUpTo60` | src/server/uplink.c:256-259 | every request with at most 60 hops can be relayed |
| `Hops.OneProxy` | src/server/uplink.c:463-488 | per proxy, departures exceed arrivals by at most the unflagged ones, which do not increase |
| `Hops.ChainIsBounded` | src/server/uplink.c:253-259 | one client request causes at most k requests at the k-th proxy and none after 61 forwards, for any connection of proxies |
| `Hops.CircleIsRefused` | src/server/uplink.c:442-447 | a relayed request that comes back in a circle, with no fewer hops, meets exactly its own entry and is refused |
| `CacheBits.FirstMask` | src/server/image.c:128 | the mask selects the blocks from the start on |
| `CacheBits.LastMask` | src/server/image.c:129 | the mask selects the blocks up to the end |
| `CacheBits.Masks` | src/server/image.h:62-65 | the masks select exactly the blocks of the range, in every map byte |
| `CacheBits.BytesToBlocks` | src/server/image.c:130-155 | updating all bytes changes exactly the blocks of the range |
| `CacheBits.IsRangeCached` | src/server/image.h:60-96 | true exactly if every block of the range is marked |
| `CacheMap.UpdateByte` | src/server/image.c:131-146 | one atomic or/and changes exactly its blocks and tells whether one was added |
| `CacheMap.UpdateMiddle` | src/server/image.c:147-153 | the loop over the bytes between |
| `CacheMap.UpdateRange` | src/server/image.c:123-155 | sets or clears exactly the blocks of the range; reports an addition exactly if there was one |
| `CacheMap.IsHashBlockComplete` | src/server/image.c:656-681 | true exactly if every block of the hash block is marked, also for a short last one |
| `CacheMap.FullHashBlocks` | src/server/image.c:160-168 | the hash blocks of the range that are complete |
| `CacheMap.CompletedIsChecked` | src/server/image.c:156-168 | a hash block that an update completes overlaps the range, so it is among those checked |
| `CacheMap.LowMask` | src/server/image.c:202-208 | the mask of the blocks the last map byte really has |
| `CacheMap.LastByte` | src/server/image.c:200-211 | comparing with that mask tests exactly the blocks of the image |
| `CacheMap.Image.constructor` | src/server/image.c:844-848 | the virtual size is the file size rounded up to a block |
| `CacheMap.Image.AllocCacheMap` | src/server/image.c:2037-2052 | keeps an existing map, else makes one with all blocks marked or none |
| `CacheMap.Image.UpdateCachemap` | src/server/image.c:88-173 | setting adds exactly the blocks wholly inside the range, clearing removes exactly those it touches; every hash block made complete is submitted for a check if there is a CRC list, and only complete ones are; the map is dirty afterwards exactly if it was or a block was cleared |
| `CacheMap.Image.IsComplete` | src/server/image.c:181-232 | true exactly if all blocks are available; drops the map then |
| `Replication.MapIndex` | src/server/uplink.c:937-941 | the cyclic index stays inside the map |
| `Replication.Visit` | src/server/uplink.c:940-966 | what one map byte does to the search |
| `Replication.Search` | src/server/uplink.c:936-969 | -1 exactly if no hash block is mixed; else the first mixed one in cyclic order and what is returned for it |
| `Replication.FindNextIncompleteHashBlock` | src/server/uplink.c:931-973 | the search, and: an access through a null pointer exactly if the image has no map |
| `Replication.MeetsSearchExactlyIf` | src/server/uplink.c:945-957 | the first non-full byte of that hash block is returned exactly if the stale case does not apply; else a hash block that is not mixed |
| `Replication.StaleExample` | src/server/uplink.c:945-951 | a map for which the stale case applies |
| `Coherence.StoreReply` | src/server/uplink.c:1052-1085 | whatever the writes do, exactly the first `done` bytes of the reply are stored and all other bytes unchanged; an interrupted write, or an error whose cause was removed for the first time, never ends the loop |
| `Coherence.KeepsStored` | src/server/uplink.c:1052-1088 | every partial write, marked byte, invalidation, scan, dropped or new map, reload and damage, by any number of threads and images, keeps: what is marked was stored |
| `Coherence.MarkedIsRemote` | src/server/image.c:88-173 | in every run each byte of a block marked in any map is the uplink's unless damaged since it was stored, and so is every byte once some image had no map |
| `Coherence.ServedIsRemote` | src/server/net.c:346-370 | what is served from the local file is what the uplink would have sent, but for bytes damaged since they were stored |
| `Coherence.KeepsInvalidInv` | src/server/image.c:191-211 | every step keeps: where a scan has been, a block is marked, or was found bad since, or the image has another map by now; a block with a byte not fetched since it was found bad is invalid for every image |
| `Coherence.KeptExactlyIf` | src/server/image.c:107-221 | a step makes a block found bad available to some image of the file before it is fetched and marked again exactly if it is one of the lossy ones |
| `Coherence.InvalidatedStaysOutExactlyIf` | src/server/image.c:88-232 | in every run blocks found bad stay unavailable to every image of the file until every byte is fetched again and the block marked, if and only if no map is dropped after something was cleared behind the scan, no block is cleared in one map while an image serves it by another or none, no invalidation gives up for lack of a map, and no block is marked of which a byte was not stored since it was cleared |
| `Coherence.StaleExactlyIf` | src/server/uplink.c:1052-1087 | in every run a byte counts as stale exactly if its block was found bad at some step and the byte not written since |
| `Coherence.LateMark` | src/server/uplink.c:1058-1087 | a mark that brings a bad block back is made for a reply of which some byte of the block was stored before the block was found bad |
| `Coherence.ServedDamageIsUndetected` | src/server/integrity.c:205-213 | without a lossy step, a byte of an available block that is not the uplink's was damaged since it was stored, and was stored again after every time its block was found bad |
| `Coherence.DropLoses` | src/server/image.c:212-221 | a run that loses an invalidation to a scan that began before it |
| `Coherence.StaleClearLoses` | src/server/image.c:107-136 | a run that loses an invalidation made in a map already dropped |
| `Coherence.LateMarkLoses` | src/server/uplink.c:1058-1087 | a run that makes a damaged block available again, with the bad byte, by marking a reply stored before the block was cleared |
| `Coherence.GiveUpLoses` | src/server/image.c:107-120 | a run that loses an invalidation because no map is found |
| `CoherenceEffects.ReplyIsMarked` | src/server/uplink.c:1052-1088 | a reply of which n bytes are stored puts them into the local file and marks exactly the blocks wholly inside them, nothing else |
| `CoherenceEffects.ReplyWithoutMap` | src/server/image.c:107-113 | without a map the reply is only written |
| `CoherenceEffects.InvalidationClears` | src/server/image.c:107-155 | clearing takes exactly these blocks from the image's map; a complete image without one gets a map of all others |
| `CoherenceEffects.CompleteDropsMap` | src/server/image.c:181-232 | a scan of a complete map ends with the image without a map |
| `CoherenceEffects.ScanStops` | src/server/image.c:191-211 | a scan that ends early changes nothing |
| `CoherenceEffects.ReloadShares` | src/server/image.c:408-412 | a reloaded image shares the map, or has none like the other |
| `Locks.RecordIsFree` | src/server/locks.c:138-150 | a mutex just acquired, or regained from a condition, is never still marked as taken |
| `Locks.SlotLeft` | src/server/locks.c:132-134 | with the sixteen priorities a thread never runs out of its twenty slots |
| `Locks.KeepsInv` | src/server/locks.c:75-263 | every step keeps notes, bookkeeping and real ownership in agreement |
| `Locks.WaitsClimb` | src/server/locks.c:122-126 | from a blocked thread to the blocked holder it waits for, the awaited priority rises |
| `Locks.NoDeadlock` | src/server/locks.c:112-135 | in every run where all acquisitions pass the checks: whenever a thread is blocked on a mutex, also after a condition, some awaited mutex is held by a thread that is not; held priorities differ; no internal sanity check fails |
| `LocksEffects.LockTakes` | src/server/locks.c:75-157 | locking, or trying to lock, a free mutex above all the thread holds gives it to the thread, in its notes, the bookkeeping and really |
| `LocksEffects.TryFails` | src/server/locks.c:137-138 | trying a mutex somebody has changes nothing |
| `LocksEffects.UnlockGives` | src/server/locks.c:159-204 | unlocking a noted mutex frees it and removes exactly that note |
| `LocksEffects.WaitComesBack` | src/server/locks.c:206-263 | waiting with the highest held mutex frees it for others, and waking up while it is free restores the state |
| `LockTable.Tables.constructor` | src/server/locks.c:40-43 | empty tables |
| `LockTable.Tables.InitLock` | src/server/locks.c:52-73 | refuses a known mutex, else takes the first free record |
| `LockTable.Tables.FindLock` | src/server/locks.c:79-84 | the record of a mutex |
| `LockTable.Tables.FindRecord` | src/server/locks.c:88-99 | the record of a thread, or the first free one |
| `LockTable.Tables.CheckOrder` | src/server/locks.c:112-135 | passes exactly if all held priorities are lower and a slot is free; finds the first free slot |
| `LockTable.Tables.BeginLock` | src/server/locks.c:75-135 | lets exactly the permitted acquisitions through and changes nobody's notes |
| `LockTable.Tables.EndLock` | src/server/locks.c:137-150 | notes the mutex for this thread and no other, unless it is marked as taken |
| `LockTable.Tables.FindSlot` | src/server/locks.c:173-182 | the slot of a mutex, and whether it is the only one in use |
| `LockTable.Tables.Unlock` | src/server/locks.c:159-197 | exactly a noted, marked mutex is released; the record is freed with its last note; other threads keep theirs |
| `LockTable.Tables.HighestOther` | src/server/locks.c:221-231 | comparing with the highest other priority is the order check for waiting |
| `LockTable.Tables.BeginWait` | src/server/locks.c:206-246 | lets exactly the permitted waits through and clears the mark |
| `LockTable.Tables.EndWait` | src/server/locks.c:252-258 | marks the mutex again unless somebody else did |
| `KernelRequests.KeepsBalance` | src/kernel/blk.c:297-378 | every step moves requests between places; only starting adds one and only ending removes one |
| `KernelRequests.KeepsOwned` | src/kernel/net.c:484-537 | every step keeps each request in at most one place |
| `KernelRequests.ExactlyOnePlace` | src/kernel/blk.c:542-606 | in every run a started request is in exactly one of send queue, receive queue or one worker's hands until it ends, and ends at most once per start |
| `KernelRequests.KeepsSocket` | src/kernel/net.c:947-971 | every step keeps the receive queue tied to the current socket outside a switch |
| `KernelRequests.ReceivesForCurrentSocket` | src/kernel/net.c:1080-1104 | once a switch has requeued, every request in the receive queue was put there for the current socket |
| `KernelEffects.GivenByOrigin` | src/kernel/blk.c:297-378 | in every run a request given from a local list goes to the tail of the send queue if it was put there as new, timed out or requeued, and is ended if a failing pass grabbed it |
| `KernelEffects.EndsForReason` | src/kernel/net.c:484-537 | in every run a request ends only by its own complete reply or because a failing pass had grabbed it |
| `KernelEffects.StartQueues` | src/kernel/blk.c:312-335 | a new request ends up at the tail of the send queue |
| `KernelEffects.TimeOutQueues` | src/kernel/blk.c:337-378 | so does one that timed out waiting for its reply, taken off the receive queue |
| `KernelEffects.Requeues` | src/kernel/blk.c:542-573 | the requeueing pass as steps: everything awaited is behind the send queue, newest first |
| `KernelEffects.Fails` | src/kernel/blk.c:575-606 | the failing pass as steps: both queues are empty and all of them ended, newest first |
| `KernelEffects.SendsAll` | src/kernel/net.c:390-425 | with a connection the send worker moves the whole send queue, in order, to the receive queue of the current socket |
| `KernelEffects.SendFails` | src/kernel/net.c:413-421 | a request that could not be sent awaits its reply, and the worker stops |
| `KernelEffects.ReplyEnds` | src/kernel/net.c:484-537 | a complete reply ends its request, an incomplete one puts it first in the send queue |
| `KernelEffects.SwitchRequeues` | src/kernel/net.c:947-971 | a switch or disconnect sets the new socket, or none, and sends everything awaited again |
| `KernelQueues.Device.RqTimeout` | src/kernel/blk.c:337-378 | a request still to be sent stays, one awaiting its reply goes back to the send queue, as the steps for it do, any other is left alone |
| `KernelQueues.Device.RemoveReceiving` | src/kernel/net.c:486-497 | takes out exactly the first matching request |
| `KernelQueues.Device.DrainRecv` | src/kernel/blk.c:549-557 | empties the receive queue into a local list, newest first |
| `KernelQueues.Device.DrainSend` | src/kernel/blk.c:591-598 | puts the send queue in front of it, newest first |
| `KernelQueues.Device.RequeueAllRequests` | src/kernel/blk.c:542-573 | all requests awaiting replies are appended to the send queue, newest first; the method stands for the run of grab and give steps |
| `KernelQueues.Device.FailAllRequests` | src/kernel/blk.c:575-606 | every request of both queues is ended exactly once, newest first; the method stands for the run of grab and give steps |
| `Chunked.DigitFits` | src/server/picohttpparser/picohttpparser.c:542-547 | sixteen hexadecimal digits never overflow 64 bits |
| `Chunked.StepKeepsValid` | src/server/picohttpparser/picohttpparser.c:528-627 | every byte keeps the decoder valid and the size unreduced |
| `Chunked.DecodeKeepsValid` | src/server/picohttpparser/picohttpparser.c:528-627 | so does any input |
| `Chunked.DecodeSplit` | src/server/picohttpparser/picohttpparser.c:523-636 | decoding can be resumed anywhere |
| `Chunked.PiecewiseIsWhole` | src/server/picohttpparser/picohttpparser.c:523-636 | any cutting of the input gives the same bytes, state, verdict and leftover as decoding it at once |
| `Chunked.OutputFits` | src/server/picohttpparser/picohttpparser.c:629-635 | output and leftover fit the input, and the leftover is its end |
| `Chunked.HexIsTable` | src/server/picohttpparser/picohttpparser.c:510-521 | the digits 0-9, a-f and A-F have their values, and nothing else is a digit |
| `Chunked.RoundTrip` | src/server/picohttpparser/picohttpparser.c:523-636 | encoding any non-empty chunks, with sizes written in any one to sixteen digits of either case, leading zeros included, with extensions and trailers (section 4.1 of RFC 7230), and decoding in any pieces returns their concatenation and exactly what follows |
| `Chunked.PrefixIsIncomplete` | src/server/picohttpparser/picohttpparser.c:523-636 | as long as any part of a message is missing, the decoder asks for more |
| `Chunked.RefusesMalformed` | src/server/picohttpparser/picohttpparser.c:535-606 | a missing size, a 17th digit and anything but a line end behind the data are refused at exactly that byte, in any pieces, with all data before it decoded |
| `ChunkedBuffer.MoveDown` | src/server/picohttpparser/picohttpparser.c:574-582 | the in-place move copies the source as it was |
| `ChunkedBuffer.Decoder.constructor` | src/server/picohttpparser/picohttpparser.h:67-72 | a zeroed decoder |
| `ChunkedBuffer.Decoder.AppendDigit` | src/server/picohttpparser/picohttpparser.c:546-547 | one digit of the size |
| `ChunkedBuffer.Decoder.ScanSize` | src/server/picohttpparser/picohttpparser.c:530-550 | the size line up to its first other byte |
| `ChunkedBuffer.Decoder.ScanExt` | src/server/picohttpparser/picohttpparser.c:552-569 | the rest of the size line |
| `ChunkedBuffer.Decoder.CopyData` | src/server/picohttpparser/picohttpparser.c:571-586 | chunk data moves to the front; unread input is untouched |
| `ChunkedBuffer.Decoder.ScanCrlf` | src/server/picohttpparser/picohttpparser.c:589-602 | the line end behind the data |
| `ChunkedBuffer.Decoder.ScanTrailerHead` | src/server/picohttpparser/picohttpparser.c:603-612 | the start of a trailer line, or the end |
| `ChunkedBuffer.Decoder.ScanTrailerMiddle` | src/server/picohttpparser/picohttpparser.c:614-623 | the rest of a trailer line |
| `ChunkedBuffer.Decoder.ScanPhase` | src/server/picohttpparser/picohttpparser.c:529-626 | one phase does what the byte-wise decoder does |
| `ChunkedBuffer.Decoder.Round` | src/server/picohttpparser/picohttpparser.c:528-627 | one turn of the loop |
| `ChunkedBuffer.Decoder.Rounds` | src/server/picohttpparser/picohttpparser.c:525-627 | the loop ends and has decoded what came in |
| `ChunkedBuffer.Decoder.DecodeChunked` | src/server/picohttpparser/picohttpparser.c:523-636 | in place: decoded bytes, then the unread input, exactly as the byte-wise decoder gives them; nothing behind the buffer size is touched |
| `Crc.CrcAppend` | src/shared/crc32.c:663-705 | a checksum continued over more data is the checksum of both |
| `Crc.PiecesAreWhole` | src/server/image.c:1696-1736 | the checksum over any cutting is that of the whole |
| `Crc.StepsLinear` | src/shared/crc32.c:657-659 | the register steps are linear over exclusive or |
| `Crc.StepsShift` | src/shared/crc32.c:657-659 | steps over zero bits only shift |
| `Crc.LookupIsEightSteps` | src/shared/crc32.c:672-675 | one lookup is eight steps |
| `Crc.TableEntries` | src/shared/crc32.c:57-59 | tables meeting the recurrence hold the effect of 16, 24 and 32 steps |
| `Crc.FourLookupsAre32Steps` | src/shared/crc32.c:657-659 | four lookups at once are 32 steps |
| `Crc.WordIsFourBytes` | src/shared/crc32.c:657-659 | a little-endian word at once is its four bytes in turn |
| `CrcCode.TablesExist` | src/shared/crc32.c:57-59 | for every generator there are such tables |
| `CrcCode.LookupsMeanRegister` | src/shared/crc32.c:657-675 | both lookup forms do what the bitwise register does (section 8 of RFC 1952) |
| `CrcCode.Singles` | src/shared/crc32.c:672-675 | single bytes up to an aligned address or the end |
| `CrcCode.Words` | src/shared/crc32.c:657-660 | any number of words |
| `CrcCode.AllWords` | src/shared/crc32.c:687-698 | 32 and then 4 bytes at a time |
| `CrcCode.Checksum` | src/shared/crc32.c:663-705 | for every length and alignment the result is the bitwise CRC-32 |
| `CrcCode.Pad` | src/server/image.c:1723-1732 | continues with zeros up to 4 KiB |
| `CrcCode.PaddedBlockIs` | src/server/image.c:1703-1710 | the padded block in numbers: its length, the file's bytes, then zeros |
| `CrcCode.ReadAll` | src/server/image.c:1712-1722 | whatever sizes `pread` returns, the sum over the range; failure exactly if one of the reads made fails |
| `CrcCode.LittleEndian` | inc/dnbd3/types.h:87-108 | a word in net order lies in memory in little-endian order on either kind of machine |
| `CrcCode.CalcBlockCrc32` | src/server/image.c:1696-1736 | on either kind of machine the stored result, read as little-endian, is the CRC of the hash block zero-padded to 4 KiB; failure exactly if one of the reads made fails |
| `CrcTable.SingleBitEntries` | src/shared/crc32.c:57-112 | tables meeting the recurrence for the CRC-32 generator have exactly the single-bit entries listed in the file |
| `CrcTable.EntriesCombine` | src/shared/crc32.c:57-112 | every entry is the exclusive or of single-bit entries |
| `CrcTable.StandardTables` | src/shared/crc32.c:57-112 | there are such tables, so the loops compute CRC-32 proper |
| `CrcTable.KnownChecksums` | src/shared/crc32.c:663-705 | the CRC-32 of nothing is 0 and that of the letter a is 0xe8b7be43 |
| `RttCheck.BestStep` | src/server/altservers.c:620-636 | one measurement updates the first cheapest candidate |
| `RttCheck.ProbeAll` | src/server/altservers.c:550-648 | the loop keeps the connection to the first cheapest server and closes every other socket exactly once |
| `RttCheck.FindUplink` | src/server/altservers.c:550-674 | the decision, and: each opened socket is handed over or closed exactly once |
| `RttCheck.BestIsUnique` | src/server/altservers.c:624-632 | at most one server is the first among the cheapest |
| `RttCheck.OtherIsCheaperExactlyIf` | src/server/altservers.c:617-619 | after a lost connection or a cycle another server with the same average is cheaper than the current one, exactly unless the penalty wraps too far |
| `RttCheck.LostServerIsAvoided` | src/server/altservers.c:617-636 | after a lost connection the same server is not chosen while one no slower can be reached |
| `RttCheck.WinnerIsFastest` | src/server/altservers.c:620-636 | while connected the winner is another server, and none has a smaller average |
| `RttCheck.CurrentIsMeasured` | src/server/altservers.c:617-623 | what the current server counts for: its average, doubled and 50 ms more in a cycle |
| `RttCheck.OpenedExactlyIf` | src/server/altservers.c:550-556 | one socket per server that could be connected to |
| `RttHandoff.KeepsHandOff` | src/server/altservers.c:508-518 | every step keeps at most one check running and the better connection set exactly when a change is due |
| `RttHandoff.KeepsAccounted` | src/server/uplink.c:599-613 | every step keeps each socket held once or closed once |
| `RttHandoff.OneCheckAtATime` | src/server/altservers.c:508-518 | in every run at most one check is in progress, `better` is set exactly in state `RTT_DOCHANGE`, and neither assertion on that state fails |
| `RttHandoff.ClosedExactlyOnce` | src/server/uplink.c:205-212 | in every run each socket is in exactly one place or closed exactly once, and all are closed when the uplink is freed |
| `RttEffects.BeginsIfQuiet` | src/server/altservers.c:508-518 | a check begins exactly if none is running and no result is waiting |
| `RttEffects.ProbeKeepsOrCloses` | src/server/altservers.c:624-639 | a better connection replaces the best so far, which is closed; any other is closed |
| `RttEffects.SwitchesToBest` | src/server/uplink.c:599-613 | the best connection, handed over, becomes the current one and the old one is closed |
| `RttEffects.NothingBetter` | src/server/altservers.c:662-674 | a check without a better server closes what it has and says so |
| `RttEffects.LosesConnection` | src/server/uplink.c:1152-1163 | a failed connection is closed |
| `RttEffects.EndCloses` | src/server/uplink.c:197-212 | at the end both connections are closed |
| `RttEffects.StartsWithConnection` | src/server/uplink.c:113-122 | an uplink made with a connection takes that over first |
| `Integrity.RequestCovers` | src/server/integrity.c:88-131 | an accepted request makes the covered set exactly the old one plus the block, or all blocks for a full scan |
| `Integrity.RefusedExactlyIf` | src/server/integrity.c:88-119 | a request is refused exactly if no task takes it in and all 200 slots are in use |
| `Integrity.RoundRemovesChecked` | src/server/integrity.c:230-244 | a round takes exactly the blocks it went past off its task, even if a request attached meanwhile; each was checked, or the file could not be opened, or, in a full scan only, it was found incomplete |
| `Integrity.AskPendingExactlyIf` | src/server/integrity.c:93-110 | an accepted request is going to be checked by a check that begins after it, unless found incomplete, if and only if it does not join the running task past the block, or while the block is being read or about to be skipped as incomplete, with no other task leading there |
| `Integrity.PendingEndsExactlyIf` | src/server/integrity.c:160-244 | once pending, exactly these end that: the check begins, the block is found incomplete or passed for want of a file, and no other task leads there |
| `Integrity.KeptExactlyIf` | src/server/integrity.c:81-244 | a step loses a request exactly if it is a request passed over, or passes an owed block because the file could not be opened |
| `Integrity.OwedExactlyIf` | src/server/integrity.c:163-224 | in every run a block is owed a check exactly if some accepted request asked for it and since then no check of it began and it was not found incomplete |
| `Integrity.CheckedExactlyIf` | src/server/integrity.c:81-244 | in every run, at all times, for each block of each accepted request a check has begun since, or it was found incomplete since, or a task in the queue still leads there, if and only if the run has no step that loses a request |
| `Integrity.LostRequest` | src/server/integrity.c:97-110 | a run that loses a request made behind the worker |
| `Integrity.LostToScan` | src/server/integrity.c:93-96 | a run that loses a request for a block a full scan has just judged incomplete |
| `Integrity.LostUnread` | src/server/integrity.c:198-204 | a run that loses a request because the file cannot be opened |
| `IntegrityCode.CheckQueue.constructor` | src/server/integrity.c:45-53 | an empty queue |
| `IntegrityCode.CheckQueue.Check` | src/server/integrity.c:81-132 | the scan of the array is the `Request` the results are about; refuses exactly if nothing takes it in and all 200 slots are used |
| `IntegrityCode.CheckQueue.FinishRound` | src/server/integrity.c:228-244 | the task after a round: shortened, or its slot freed |
| `IntegrityCode.Visits` | src/server/integrity.c:163-224 | a round goes through consecutive blocks until enough complete ones were taken or the image ends; each is checked unless a full scan finds it incomplete or the file cannot be opened, and only incomplete ones do not count |
| `IntegrityCode.FullScan` | src/server/integrity.c:160-244 | whatever the map says, a full scan goes through each hash block once, in ascending order, checks it unless incomplete or unreadable at that time, and ends |
| `IntegrityEffects.RoundChecks` | src/server/integrity.c:160-244 | an undisturbed round on complete, readable blocks checks five of them, or as many as the task or the image has left, and leaves exactly the rest of the task |
| `IntegrityEffects.TaskIsWorkedOff` | src/server/integrity.c:148-256 | round by round every block of a task is checked and its slot freed |
| `IntegrityEffects.TrimShortens` | src/server/integrity.c:154-157 | a free last slot is given up |

## Left out

- Sockets, poll, disk I/O, signals, logging and clocks: replaced by parameters or by steps that may succeed or fail.
- Images going away (the `users` counter, `image_free`, the path of the integrity worker for missing images):
  images stay loaded.
- `crc32pclmul`: the carry-less-multiply variant; the table path is modelled, with tables given by their
  recurrence. So is the big-endian variant.
- Memory order weaker than sequential consistency, and overflow of the reference counter.
- Installing a `ref` again in a weak reference that already held it: assumed not to happen, as the callers ensure.
- Wrap-around of the handle counter of the uplink queue, an `atomic_uint_fast32_t` of 32 or 64 bits depending
  on the platform. A handle drawn for replication between the two handles of one lock section is modelled as
  drawn before or after it.
- The `problem.queue` and `problem.write` flags, idle time and statistics of an uplink.
- A bound of 500 on the queue and of the payload limit on outgoing requests: prefetching and rounding do not check them.
- `sendReplicationRequest` apart from its search for hash blocks: its requests enter the queue with any range
  inside the image.
- The reply to a handle is assumed to carry exactly the requested range; the code only logs a wrong size.
- `net.c` slots being reused for new clients: each client of the model is one connection.
- CacheMap.Image.UpdateCachemap: works alone on its map; other threads on the same map, byte by byte, are the
  subject of `Coherence`.
- Replication.Search: the map does not change under the search; in the code it races with threads that mark
  blocks (src/server/uplink.c:942).
- CacheMap.Image.IsComplete: scans and drops without interruption; the interleaving with marking and clearing
  is the subject of `Coherence`.
- The periodic reload and replacement of the map of an image that this server does not replicate itself
  (src/server/image.c:1926-1947): its map is another server's.
- Saving the cache map, and its crash consistency; masking a map with its saved state after a failed fsync is
  an invalidation in `Coherence`.
- Destroying mutexes, and threads that exit with a record in the lock table.
- Timeouts of the block layer returning before a request is queued again, and request tags: a request may be
  started again once it ended.
- `RTT_THRESHOLD_FACTOR` and `RTT_UNREACHABLE` are parameters; the header that defines them is not part of this model.
- RttCheck.FindUplink: choosing the candidate servers, averaging over past measurements and failure counts are
  parameters.
- The integrity worker's shutdown, images without a CRC list, retrying when the queue is full, and the CRC
  comparison itself.
- The FUSE clients, benchmark, command-line tools, configuration, access lists, JSON, sysfs and serializer.
