# Verification of oursql

This project models the parts of oursql, a small disk-based database engine, whose correctness does not show from
reading one function: crash recovery over the write-ahead log, the buffer pool that writes pages behind it, the
disk-paged B+ tree, the lock manager, the storage structures, and the expression language. Each part is written in
the form of the program - classes with fields and loops where the program updates state, functions where it computes -
and each method is proved against a specification whose properties are proved as lemmas.

## How the parts fit together

**Recovery and the engine.** `Wal` says what a log means: who has committed, and which image a page has in the end
(`Final`: the after image of its last committed update, or its image at the last checkpoint). `RecoveryMachine` is
recovery as a machine with one log append or page write a step, so that a crash can fall between any two of them;
`Recovery` holds the program's own algorithm (analysis, redo, undo through a max-LSN queue, final Abort records),
proved to walk that machine; `FreedPages` says which pages it gives back, `RecoveredImages` what it leaves on all the
others. `EngineMachine` is the running engine: begin, lock, fetch, evict, guarded write, flush,
commit, rollback, retried rollback, checkpoint; `FreeList` says which pages it gives back. `CrashRuns` puts both
together: the engine runs, crashes with any part of the log that is not yet durable lost, recovers, crashes while
recovering, resumes. `TornLog` does the same with a crash in the middle of any byte of the log file.

**The buffer pool** (`PoolState`, `BufferPool`) refines the flat page cache of that machine: every method says which
actions of the engine it amounts to, so that what is proved of all runs of the engine holds of the pool
(`PoolRuns`). `PoolHistory` speaks of all sequences of calls, `PoolMishaps` has two that go wrong, and `Checkpoints`
runs the checkpoint of the engine on the pool.

**The B+ tree** is a map of pages and a ghost list of levels; a level is the left-to-right sequence of its pages. The
class `BPlusTree` inserts, removes and scans on the pages; one lemma a step carries the tree invariant along.

**The lock manager** keeps one FIFO queue a resource. Each method is one critical section of the program; a call that
has to wait ends with its first wait, and goes on in `WakeUp`.

**Storage**: the slotted page on bytes, the chain of pages of a table on top of it, rows and log records as bytes, and
the CLOCK replacer.

**Expressions**: lexer, recursive-descent parser, printer, constant folder, type checker and three-valued evaluator
over one syntax tree. What they compute is tied to definitions of their own: `EvalMeaning` to the order of the values
and exact arithmetic, `TypeRules` to typing rules, `Precedence` to a writer that leaves out needless parentheses,
`Gaps` to text with any white space and comments in it.

## Model

| member | source | states |
|---|---|---|
| CrashRuns.CrashRecoveryIsCorrect | src/recovery/recovery_manager.cpp:63-216 | In every run of engine, crashes, interrupted recoveries and resumptions in which each retried rollback is safe: when recovery is done, every tracked page holds its last committed image (or its checkpoint image), no transaction is unfinished, and every acknowledged commit is a winner |
| CrashRuns.UnlockedPagesAreCommitted | src/transaction/transaction_manager.cpp:281-446 | At every moment of such a run, a page that no transaction holds reads, through cache and disk, as its last committed image |
| CrashRuns.NoTxnEndsTwice | src/transaction/transaction_manager.cpp:281-329 | At no moment does the log hold both a Commit and an Abort of one transaction |
| CrashRuns.RunKeepsInv | src/storage/storage.cpp:1642-1652 | Every reachable state of the whole system keeps the invariant that makes any crash recoverable: whichever unflushed tail of the log is lost, the disk fits the log that is left |
| CrashRuns.ActionKeepsInv | src/transaction/transaction_manager.cpp:198-446 | Each of the 27 actions of the engine keeps its invariant; only the retry of a rollback needs a condition |
| CrashRuns.CheckpointKeepsFinal | src/execution/database_engine.cpp:473-489 | Truncating the log at a checkpoint changes the final image of no tracked page |
| Checkpoints.Checkpoint | src/execution/database_engine.cpp:473-488 | Refused exactly while there are transactions; otherwise the log is empty and the new base has every page as it read before if and only if no page that is being deleted differs from its copy on disk; without unwritten changes of such pages it is a run of the engine that ends with Truncate |
| Recovery.RecoveryManager.Recover | src/recovery/recovery_manager.cpp:63-216 | The algorithm, run to its end, leaves every tracked page with the image the log promised when it started; exactly the pages that a winner freed or a loser allocated come to the free list; every page not among them, known to the last checkpoint or not, has what the log asks for; nobody is left unfinished, and only CLRs and Aborts are appended |
| Recovery.RecoveryIsRestartable | src/recovery/recovery_manager.cpp:97-207 | However often recovery is interrupted, with any part of its own records lost, a completed attempt gives the pages that the original log promises, and frees exactly the pages that the original log owes to the free list |
| FreedPages.AttemptKeepsFreed | src/recovery/recovery_manager.cpp:97-207 | Every step of recovery and every crash during it frees nothing without reason, and what is still owed is paid by a step to come |
| RecoveredImages.LastRedoIsExpected | src/recovery/recovery_manager.cpp:97-121 | The last thing redo writes to a page that no undo is pending for is what is asked for: the before image of the first update of the loser that updated it, or else the last committed image |
| RecoveredImages.LastUndoIsExpected | src/recovery/recovery_manager.cpp:140-191 | The last thing undo writes to a page is the before image of the first update of the loser that updated it |
| Recovery.RunsToDone | src/recovery/recovery_manager.cpp:124-191 | From every state that satisfies the recovery invariant recovery runs to its end: the undo queue only sinks along prev_lsn and undo_next_lsn |
| RecoveryProof.AttemptsKeepInv | src/recovery/recovery_manager.cpp:45-59 | Every step of recovery and every crash during it keeps the recovery invariant |
| WalFacts.LastClrRestoresFirst | src/recovery/recovery_manager.cpp:124-191 | Of the CLRs a loser left on a page, the one logged last carries the before image of its first update |
| AbortRetry.RetryIsRightIff | src/transaction/transaction_manager.cpp:413-437 | A rollback whose Abort record was appended but not made durable is tried again: recovery is right at every crash point of the retry if and only if every page the transaction updated is untracked, or was updated by a committed transaction, or has the checkpoint image as the before image of each of these updates |
| AbortRetry.UnsafeRetryLosesAPage | src/transaction/transaction_manager.cpp:413-437 | When the condition fails there is a run of the retry, a crash in it and a completed recovery that leaves a tracked page wrong |
| AbortRetry.UpdatesOnceIsSafe | src/transaction/transaction_manager.cpp:198-243 | The condition holds of every transaction that updated no page twice: the caller can see that before retrying |
| AbortRetryRun.RetriedAbortLosesThePage | src/transaction/transaction_manager.cpp:399-446 | A run from an empty log that reaches such a failure: two updates of one page, a rollback whose Abort flush fails, a retry, a crash, and a recovery that leaves the page with an uncommitted image |
| FreeList.ReleasedPages | src/transaction/transaction_manager.cpp:366-390 | In every run: when a transaction lets go of its locks, each page it freed is on the free list if it has committed, and each page it allocated if it was rolled back, at the first attempt or at a retry |
| FreeList.RunKeepsList | src/transaction/transaction_manager.cpp:222-236 | In every state of every run a page freed or allocated by an unfinished transaction stays locked by it, and comes to the free list with its deletion after the commit, or with the undo of its allocation, and does not leave it before the locks go |
| FreeList.FreedForAReason | src/storage/storage.cpp:177-181 | No action of the running engine puts a page on the free list unless a committed transaction freed it or one being rolled back had allocated it |
| ReusedPage.InUseIsFreedIff | src/recovery/recovery_manager.cpp:35-43 | A page that a winner has in use is on the free list after recovery if and only if it was there before, or a winner had freed it earlier in the same log |
| ReusedPage.ReusedPageIsFreed | src/recovery/recovery_manager.cpp:110-111 | From every quiet state of the engine and for every page of the file: one transaction frees the page, the next allocates it and its commit is acknowledged, and every recovery then puts the page on the free list |
| TornLog.ByteCrashIsCrash | src/storage/log_manager.cpp:335-419 | Cutting the log file anywhere beyond its durable part is one of the engine's crashes: the repairing scan finds exactly the records of a record prefix that holds the durable ones |
| TornLog.TornLogIsRecovered | src/storage/log_manager.cpp:116-162 | An engine that crashes while its log file is cut at any byte beyond the durable part is recovered from what the scan finds, through any further crashes |
| PoolRuns.PoolCrashIsRecovered | src/storage/storage.cpp:1642-1652 | After any actions of the buffer pool, a crash that loses any part of the log not yet durable is recovered: no image reaches the disk before the log that undoes it |
| PoolRuns.FetchReadsSame | src/storage/storage.cpp:1842-1980 | A fetch, whatever it loads, evicts or writes back, changes the content of no page, and what is pinned reads as the page did before |
| PoolRuns.QuietRun | src/storage/storage.cpp:1715-1743 | No sequence of fetches, evictions and flushes changes what any page reads as |
| BufferPools.BufferPool.FetchPage | src/storage/storage.cpp:1842-1980 | Page table and frames stay in bijection; the fetch fails exactly for the listed reasons, for want of a frame exactly when every frame is pinned or being deleted; a failed read is remembered and the fetch that reports it forgets it; pinned frames and all write guards stay good; the pool does what Fetch, Evict and FlushPage of the flat cache do |
| BufferPools.BufferPool.FetchPageWrite | src/storage/storage.cpp:1994-2136 | The same for a write guard, which records the image the page reads as; the guards of others stay good |
| BufferPools.BufferPool.ReleaseWrite | src/storage/storage.cpp:1561-1640 | Releasing a changed guard is one logged Write of the engine with both images (or, when logging fails, puts the old image back and marks the transaction failed), followed by a flush in write-through mode |
| BufferPools.BufferPool.ReleaseRead | src/storage/storage.cpp:1786-1840 | One pin less; the last pin makes the frame a candidate for eviction unless its page is being deleted |
| BufferPools.BufferPool.NewPage | src/storage/storage.cpp:2142-2273 | The new page is the engine's Allocate, after the eviction of a victim; table and frames stay in bijection exactly when no other frame already holds the page number handed out |
| PoolState.AllocatedTableIff | src/storage/storage.cpp:2243-2266 | A page taken from the free list while another frame caches it gives two frames for one page, and that is the only way the bijection breaks |
| PoolHistory.NoPageIsDoubled | src/storage/storage.cpp:2142-2273 | In every run of calls that fetches no page on the free list, no page is ever in two frames, and pool and table stay consistent |
| PoolMishaps.DoublePage | src/storage/storage.cpp:2243-2266 | For every pool of two frames or more and every page on the free list: a fetch, a release and a NewPage after which that page is in two frames |
| PoolHistory.MissFailsIff | src/storage/storage.cpp:1899-1957 | In every run from a pool without remembered failures: with a frame to be had and the page on disk, a fetch that misses fails if and only if the last attempt to read that page failed and no fetch has reported it since; it is then forgotten |
| PoolMishaps.ReportLate | src/storage/storage.cpp:1899-1957 | A run in which a page is fetched before it exists, is then created and evicted, and the next fetch reports it as missing although it is on disk; the one after succeeds |
| PoolHistory.Perform | src/storage/storage.cpp:1842-2558 | Every call of a method of the pool that meets its precondition is one of the steps of which those runs consist |
| BufferPools.BufferPool.FlushPage | src/storage/storage.cpp:2322-2388 | Flushing writes exactly the changed unpinned page, after its log, and is the engine's FlushPage |
| BufferPools.BufferPool.FlushAllPages | src/storage/storage.cpp:2389-2409 | Afterwards no frame holds changes, except of pages that are being deleted; nothing is loaded or evicted |
| BufferPools.BufferPool.RestorePage | src/storage/storage.cpp:1517-1559 | Refused exactly when the page is pinned, being deleted or not on disk; otherwise undo's image is on disk and in the cache |
| BufferPools.BufferPool.FinalizePageDeletion | src/storage/storage.cpp:2495-2558 | The page leaves pool and disk just as it leaves the flat cache, and its frame is free again; refused without a reservation or with guards left |
| BufferPools.BufferPool.BeginPageDeletion | src/storage/storage.cpp:2446-2473 | Reserved only when exactly the expected guards hold the page; it reads as before |
| BufferPools.BufferPool.CancelPageDeletion | src/storage/storage.cpp:2475-2493 | The page is reachable again, with the content it had |
| BufferPools.BufferPool.SelectFrame | src/storage/storage.cpp:1715-1743 | A free frame or a candidate of the replacer; none exactly when every frame is pinned or being deleted |
| BufferPools.BufferPool.WriteFrameBack | src/storage/storage.cpp:1642-1652 | Writes a changed page and nothing else, with the log durable up to its page LSN |
| BufferPools.BufferPool.Modify | src/storage/storage.cpp:984-1013 | Changing the bytes under a guard changes nothing that others can see before the guard is released |
| PoolState.LoggedIs | src/storage/storage.cpp:1023-1048 | Releasing a changed guard is one Write of the engine with the image from before the guard as its before image |
| PoolState.LoadOverVictim | src/storage/storage.cpp:1900-1975 | Reading a page over a victim is the engine's Evict followed by its Fetch, and keeps pool and table consistent |
| BPlusTreeIndex.BPlusTree.Insert | src/index/b_plus_tree.cpp:191-239 | Ok adds exactly one occurrence of the pair through leaf splits, cascading internal splits and new roots, and keeps the tree invariant; AlreadyExists exactly when the leaf where descent ends holds the pair, and then nothing changes; a pair ends up twice exactly when it was held but not in that leaf |
| BPlusTreeIndex.BPlusTree.Remove | src/index/b_plus_tree.cpp:425-487 | Removes exactly one occurrence, or reports NotFound exactly when there is none, and keeps depth, fill, separator bounds, parents and leaf chain through borrowing, merging, rebalancing upward and root collapse |
| BPlusTreeIndex.BPlusTree.RangeScan | src/index/b_plus_tree.cpp:942-998 | Returns every entry in the key range as often as the tree holds it and nothing else, in (key, row identifier) order, even when equal keys span leaves and descent ends left of them |
| BPlusTreeIndex.BPlusTree.RebalanceLeaf | src/index/b_plus_tree.cpp:547-717 | A short leaf, and every ancestor that becomes short, is refilled; what the index holds does not change |
| BPlusTreeIndex.BPlusTree.PropagateSplit | src/index/b_plus_tree.cpp:297-391 | Telling the ancestors of a split ends in a valid tree that holds the same entries |
| BPlusTreeIndex.BPlusTree.PropagateMinimumChange | src/index/b_plus_tree.cpp:489-525 | Changing separators after the first entry of a leaf has gone keeps the tree valid and what it holds |
| BPlusTreeIndex.BPlusTree.FindLeaf | src/index/b_plus_tree.cpp:144-189 | Descent ends at the leaf whose separator lies below the key while its right neighbour's does not; the path lists its ancestors |
| BPlusTreeIndex.BPlusTree.Lookup | src/index/b_plus_tree_page.cpp:188-193 | The child chosen has a separator below the key, the next one does not: separators are inclusive on both sides |
| BPlusTreeIndex.BPlusTree.CreateNewRoot | src/index/b_plus_tree.cpp:369-391 | A split root gets a parent: the tree is valid again, one level higher, with the same entries |
| BPlusTreeIndex.BPlusTree.SetParents | src/index/b_plus_tree.cpp:409-423 | Exactly the children moved by a split point to their new parent |
| BPlusTreeIndex.BPlusTree.FindEntry | src/index/b_plus_tree.cpp:425-447 | Walking the leaf chain finds a leaf that holds the pair, or the tree does not hold it at all |
| BPlusTreeIndex.BPlusTree.SubtreeMinimum | src/index/b_plus_tree.cpp:527-545 | The smallest key below a page is the first entry of its leftmost leaf |
| BPlusTreeIndex.BPlusTree.RebalanceInternal | src/index/b_plus_tree.cpp:719-878 | From a tree with one page short the recursion upward ends in a valid tree with the same entries |
| BPlusTreeIndex.BPlusTree.TakeChildAsRoot | src/index/b_plus_tree.cpp:732-742 | A root with one child gives way to it; the tree stays valid and keeps its entries |
| BTreeRemoval.RefillStep | src/index/b_plus_tree.cpp:547-717 | Borrowing from either neighbour or merging with one leaves a tree that is valid but for its parent, with the same entries |
| BTreeRefill.InternalRefillStep | src/index/b_plus_tree.cpp:719-878 | The same for an internal page, with the parents of the children that moved |
| BTreeSteps.LeafStep | src/index/b_plus_tree.cpp:251-295 | What insertion does to one leaf leads to a valid tree, or to one that is valid but for a split its parent does not know yet, with exactly the new pair added |
| BTreeSteps.ParentStep | src/index/b_plus_tree.cpp:297-367 | Telling the parent of a split gives a valid tree or moves the pending split one level up; the entries stay |
| BTreeDuplicates.DuplicateIsSeen | src/index/b_plus_tree.cpp:260-265 | When no separator of the leaf level equals the key, the duplicate check sees a pair exactly when the tree holds it |
| BTreeDuplicates.SomeUnseenIff | src/index/b_plus_tree.cpp:260-265 | While every pair of a key is held once, the check misses one of them if and only if an entry of that key lies right of the leaf where descent ends; then a separator equals the key |
| BTreeDuplicates.DuplicateIsNotSeen | src/index/b_plus_tree.cpp:260-265 | In every valid tree that holds more pairs of one key than fit in a leaf, one of them is not seen by the check |
| StoredTwice.StoreTwice | src/index/b_plus_tree.cpp:251-295 | Insertions into an empty index, for every configuration and key, after which one pair is stored twice |
| StoredTwice.UnseenPair | src/index/b_plus_tree.cpp:260-265 | After storing more pairs of a key than fit in a leaf there is a stored pair that the check does not see |
| LockQueue.GrantOk | src/transaction/lock_manager.cpp:313-325 | Granting a request that passes both scans keeps the held modes compatible and the queue well formed |
| LockQueue.GrantFair | src/transaction/lock_manager.cpp:313-325 | In a queue where nobody has been granted past an earlier waiter, granting a request that passes both scans keeps it so |
| LockQueue.GrantedDoNotConflict | src/transaction/lock_manager.cpp:241-284 | In every reachable queue the modes really held are compatible - during an upgrade these are the old ones - and so are the modes requested when no upgrade is pending |
| LockSteps.OnlyOwnRequest | src/transaction/lock_manager.cpp:165-234 | No critical section touches the requests of other transactions |
| LockSteps.ReleaseEnds | src/transaction/lock_manager.cpp:327-360 | After a release the transaction neither holds the lock nor waits for it |
| LockManagement.LockManager.Lock | src/transaction/lock_manager.cpp:87-163 | A lock call up to its first wait: rejected with nothing changed, or granted or waiting as the queue specification says, on its own resource only; all queues stay well formed |
| LockManagement.LockManager.WakeUp | src/transaction/lock_manager.cpp:165-234 | A call that waits is granted, goes on waiting, or ends when its transaction was cancelled, as the queue specification says |
| LockManagement.LockManager.Unlock | src/transaction/lock_manager.cpp:327-360 | Gives up exactly the transaction's own request on that resource |
| LockManagement.LockManager.CanGrant | src/transaction/lock_manager.cpp:313-325 | The two scans decide whether no granted request of another transaction conflicts and nobody waits in front |
| LockQueue.UpgradeStrengthens | src/transaction/lock_manager.cpp:266-284 | What conflicts with a mode conflicts with every mode it can be upgraded to |
| LockQueue.ConflictIff | src/transaction/lock_manager.cpp:241-264 | Two modes conflict if and only if the rights they give clash: one writes all, or one reads all while the other writes some |
| LockQueue.UpgradeIff | src/transaction/lock_manager.cpp:266-284 | A mode can be upgraded exactly to those that give strictly more rights |
| LockSteps.SecondLock | src/transaction/lock_manager.cpp:87-163 | Of two transactions that lock a free resource the second is granted at once if and only if their rights do not clash |
| LockSteps.UpgradeMeans | src/transaction/lock_manager.cpp:105-163 | A holder who asks for another mode gets it if it gives strictly more rights, at once exactly when nobody waits in front and no other holder clashes with it |
| LockQueue.EraseOk | src/transaction/lock_manager.cpp:327-360 | Removing a request keeps the queue well formed, fair and compatible |
| LockManagement.LockManager.UnlockAll | src/transaction/lock_manager.cpp:362-400 | Afterwards the transaction is neither granted nor waiting in any queue and holds nothing, and every other queue entry is as before; an entry that was waiting or upgrading stays as cancelled |
| LockQueue.WaiterHasEdgeIff | src/transaction/lock_manager.cpp:451-475 | A waiter of a stuck queue has a wait-for edge if and only if it does not ask for IS, or another request for X is granted or in front of it |
| LockQueue.WaiterHasEdge | src/transaction/lock_manager.cpp:451-475 | The edge itself: whom the waiter at that place waits for, in queues of every kind and with cancelled requests in them |
| LockQueue.BlockedIsNotGrantable | src/transaction/lock_manager.cpp:298-325 | Every wait-for edge means that the waiter cannot be granted |
| LockQueue.TableWaiterWithoutEdge | src/transaction/lock_manager.cpp:241-259 | A table queue where the condition fails: behind IX granted and S waiting, a waiter for IS has no edge |
| UnseenDeadlock.LockUp | src/transaction/lock_manager.cpp:505-520 | Any three transactions, a table and a page: five lock calls after which all three wait where nobody can go on, and detection finds no victim |
| LockSteps.GrantedAtOnce | src/transaction/lock_manager.cpp:87-163 | The first request of a transaction is granted without a wait if and only if nobody waits in the queue and no granted request conflicts |
| WaitGraph.Search.FindVictim | src/transaction/lock_manager.cpp:477-503 | The three-colour search gives the largest transaction of a cycle of the graph, or an order of all nodes in which edges only go back |
| LockManagement.LockManager.WaitForGraph | src/transaction/lock_manager.cpp:451-475 | The graph built has exactly the edges from usable waiters to the usable transactions they wait for |
| WaitGraph.OrderedIsAcyclic | src/transaction/lock_manager.cpp:477-503 | A graph with such an order has no cycle: so a victim is found exactly when there is one |
| WaitGraph.ClosedIsNotOrdered | src/transaction/lock_manager.cpp:477-503 | No node of a set whose members all wait within the set is in such an order |
| LockManagement.LockManager.DetectDeadlocks | src/transaction/lock_manager.cpp:505-520 | Fails exactly the largest transaction of a wait cycle; when it fails none there is no wait cycle, and no set of usable transactions that are all stuck and wait for nobody else, where a waiter for IS counts if an X is in its way |
| SlottedPages.ValidateBytes | src/storage/storage.cpp:1089-1155 | Accepts exactly the bytes whose header is consistent and whose records lie in bounds and apart |
| SlottedPages.InsertRecord | src/storage/storage.cpp:1183-1274 | Refused for space exactly when size and a new slot exceed the page less directory and live bytes; otherwise adds exactly that record under an unused slot; the page stays valid and keeps its link |
| SlottedPages.PackingMakesRoom | src/storage/storage.cpp:1229-1249 | Whatever fits in all is placed after packing: the failure after compaction cannot happen |
| SlottedPages.Compact | src/storage/storage.cpp:1349-1385 | Every record is kept under its slot, all free space is in one piece, and the page stays valid |
| SlottedPages.DeleteRecord | src/storage/storage.cpp:1326-1347 | Removes exactly that record; NotFound exactly when there is none |
| SlottedPages.GetRecord | src/storage/storage.cpp:1276-1324 | Gives the bytes of the record under the slot, or NotFound exactly when there is none |
| SlottedPages.Initialize | src/storage/storage.cpp:1157-1173 | A valid page without records and with the given link, which takes every record that is not too large; link 0 is refused |
| SlottedPages.SetNextPageId | src/storage/storage.cpp:1425-1440 | Changes the link and no record |
| SlottedLayout.LiveFits | src/storage/storage.cpp:1089-1155 | Records that lie apart between two bounds have no more bytes than lie between them |
| ClockReplacement.ClockReplacer.FindVictim | src/storage/storage.cpp:818-846 | A victim is found within two sweeps exactly when some frame is evictable; it is the first candidate ahead of the hand without its bit, and only if all had theirs the first candidate; the others passed over lose their bit |
| ClockReplacement.ClockReplacer.Pin | src/storage/storage.cpp:756-771 | Takes exactly that frame from the candidates and sets its bit; the count stays the number of candidates |
| ClockReplacement.ClockReplacer.Unpin | src/storage/storage.cpp:773-788 | Makes exactly that frame a candidate, once; the count stays the number of candidates |
| ClockReplacement.ClockReplacer.Remove | src/storage/storage.cpp:802-816 | Forgets exactly that frame |
| ClockReplacement.CandidateIsAhead | src/storage/storage.cpp:818-846 | Two full rounds of the hand would have found a candidate: the fall-through result cannot happen |
| HeapTables.HeapTable.InsertRow | src/storage/heap_table.cpp:118-192 | Adds one unused row identifier with the row's bytes on the first page of the chain with room, or on a new last page exactly when none has; all other rows are kept, and a refusal changes nothing |
| HeapTables.HeapTable.DeleteRow | src/storage/heap_table.cpp:253-354 | Removes exactly one row; a page other than the first leaves the chain exactly when its last row goes |
| HeapTables.HeapTable.GetRow | src/storage/heap_table.cpp:193-246 | Finds exactly the rows of the table, each as the only row with those bytes |
| HeapTables.Scan | src/storage/heap_table.cpp:356-369 | Lists every row of the table once, and no other, in chain and slot order |
| HeapTables.ScanCursor.Next | src/storage/heap_table.cpp:15-100 | Gives the next row in chain order, and ends only when all have been listed |
| HeapChain.WithoutPageOk | src/storage/heap_table.cpp:269-354 | Unlinking the emptied page keeps the chain acyclic and every other row |
| HeapChain.WithPageOk | src/storage/heap_table.cpp:158-190 | Linking a new last page keeps the chain acyclic and every other row |
| HeapTables.HeapTable.FindPage | src/storage/heap_table.cpp:193-232 | Finds exactly the pages of the chain: a row identifier of another table is refused |
| RowCodec.Encode | src/storage/row_codec.cpp:64-112 | Encodes exactly the rows that fit the schema; otherwise the error of the first value that does not |
| RowCodec.Decode | src/storage/row_codec.cpp:114-174 | Accepts exactly the bytes of rows that fit the schema, and gives that row |
| RowCodec.RowIsUnique | src/storage/row_codec.cpp:64-174 | No bytes are those of two rows, so decoding gives back the row that was encoded |
| RowParsing.DecodeFields | src/storage/row_codec.cpp:127-173 | Whatever a field is, if reading a field inverts writing it then the loop accepts exactly the bytes of fitting rows |
| LogCodec.EncodeThenDecode | src/storage/log_manager.cpp:185-308 | Every record the encoder accepts is decoded as it was, checksum and all |
| LogCodec.DecodeThenEncode | src/storage/log_manager.cpp:256-308 | Encoding a decoded record gives its bytes back exactly when the encoder accepts it and the padding is zero |
| Bytes.StoredByte | src/storage/log_manager.cpp:30-49 | Numbers are stored with the lowest byte first |
| LogCodec.ChecksumSkips | src/storage/log_manager.cpp:75-90 | The checksum does not depend on the bytes it is stored in |
| LogCodec.Crc32 | src/storage/log_manager.cpp:75-88 | The loops over bytes and bits compute the checksum of the specification, which leaves out its own field |
| CrcFacts.CheckValue | src/storage/log_manager.cpp:75-88 | On the digits from 1 to 9 the checksum is the published check value of CRC-32 |
| CrcFacts.ChecksumDiffersIff | src/storage/log_manager.cpp:75-88 | Damage to one byte changes the checksum exactly when the byte is not one of the checksum's own |
| CrcFacts.DamageIsDetected | src/storage/log_manager.cpp:257-277 | No record with one damaged byte, anywhere in it, is decoded |
| LogScan.TornTail | src/storage/log_manager.cpp:335-419 | For every valid list of records and every byte cut of its file, the repairing scan returns exactly the records that lie wholly before the cut and keeps exactly their bytes |
| LogScan.DamagedFile | src/storage/log_manager.cpp:355-379 | With one damaged byte in a record, other than in its length, a scan of the file fails, or, if it is the last record and a torn tail may be repaired, reads exactly the records before it |
| TailScan.DamageEndsScan | src/storage/log_manager.cpp:355-379 | For any codec: nothing from the first record that is not decoded on is ever read |
| LogScan.ByteCutIsRecordCut | src/storage/log_manager.cpp:335-419 | A byte cut of the engine's log is read back as the longest record prefix that lies before it |
| TailScan.ScanGivesChain | src/storage/log_manager.cpp:335-419 | Whatever the bytes, the records a scan accepts have ascending numbers and unbroken chains |
| TailScan.RepairIsClean | src/storage/log_manager.cpp:335-419 | What a repairing scan keeps is accepted by a scan without repair, with the same records |
| LogFile.LogManager.Append | src/storage/log_manager.cpp:310-333 | Gives the next number and adds exactly that record and its bytes, or leaves file and records alone when it cannot be encoded or the log is not open |
| LogFile.ChainGrowsIff | src/storage/log_manager.cpp:380-404 | The log can still be read after an append if and only if it could before and the record points to the last one of its transaction |
| LogFile.LogManager.Flush | src/storage/log_manager.cpp:444-506 | Success means durable up to the target; a failure makes nothing less durable |
| LogFile.LogManager.Open | src/storage/log_manager.cpp:116-162 | Whatever the bytes: refused exactly when the repairing scan fails, and otherwise what the scan found and kept is the log, numbered on from its last record; of a log torn at any byte these are exactly the records that survived whole |
| LogFile.LogManager.ScanAll | src/storage/log_manager.cpp:421-426 | Scanning the open log gives all its records with nothing to repair if they form a chain, and otherwise fails |
| LogFile.LogManager.Truncate | src/storage/log_manager.cpp:514-534 | The log is empty and its numbers start again |
| Folding.FoldKeepsMeaning | src/optimizer/expression_optimizer.cpp:183-309 | Folding changes the result of no expression on any row, group and subquery runner, errors included |
| Folding.FoldIsIdempotent | src/optimizer/expression_optimizer.cpp:183-309 | Folding a folded expression changes nothing |
| Folding.ArithmeticFoldsIff | src/optimizer/expression_optimizer.cpp:110-157 | A sum, difference or product of literals folds exactly when the exact result fits in 64 bits |
| Folding.DivisionFoldsIff | src/optimizer/expression_optimizer.cpp:183-236 | A quotient of literals folds exactly when the divisor is not zero and the truncated quotient fits in 64 bits |
| Folding.FoldExpr | src/optimizer/expression_optimizer.cpp:183-309 | The recursive folder, with its loop over IN options, computes that function |
| TypeCheck.FoldKeepsType | src/optimizer/expression_optimizer.cpp:183-309 | A typed expression has the same type after folding |
| Expressions.SafeMulIsExact | src/optimizer/expression_optimizer.cpp:128-157 | The division-based overflow test succeeds exactly when the product fits in 64 bits |
| Evaluator.Evaluate | src/execution/executor.cpp:116-367 | The recursive evaluator with its loops computes the specification function on every expression and context |
| EvalMeaning.ComparisonMeans | src/execution/executor.cpp:97-115 | Each comparison is NULL on NULL, a type mismatch on two kinds, and otherwise what its sign says of the order of the values |
| EvalMeaning.IntegersCompare | src/execution/executor.cpp:355-364 | On integers that is the order of the integers |
| EvalMeaning.TextOrderIs | src/execution/executor.cpp:105-108 | One text is below another exactly when they agree up to a place where it ends or has the smaller character |
| EvalMeaning.OneOfThree | src/execution/executor.cpp:97-115 | Of two values of one kind exactly one holds: equal, below, above; FALSE is below TRUE |
| EvalMeaning.BelowFollows | src/execution/executor.cpp:97-115 | The order is transitive on values of every kind |
| EvalMeaning.BetweenMeans | src/execution/executor.cpp:166-183 | BETWEEN takes in both ends; NULL anywhere makes it NULL |
| EvalMeaning.InMeans | src/execution/executor.cpp:184-203 | IN is true exactly when one of the values is the operand, else NULL exactly when one is NULL |
| EvalMeaning.SubqueryMeans | src/execution/executor.cpp:249-293 | EXISTS says whether there are rows; a scalar subquery gives its only value, NULL without rows, an error otherwise; IN works on the first column |
| EvalMeaning.ArithmeticMeans | src/execution/executor.cpp:330-353 | Sums, differences, products and signs are exact, and an overflow exactly when they do not fit in 64 bits |
| EvalMeaning.DivisionMeans | src/execution/executor.cpp:349-353 | A quotient is rounded towards zero; it is an error exactly for the divisor 0 and for the one quotient that does not fit |
| EvalMeaning.AverageMeans | src/execution/executor.cpp:217-248 | AVG is the exact total divided by the number of values that are not NULL, rounded towards zero |
| EvalMeaning.SumIsTotal | src/execution/executor.cpp:217-248 | SUM is NULL on no values and otherwise the exact total |
| EvalMeaning.ExtremeIs | src/execution/executor.cpp:217-248 | MIN and MAX over values of any one kind give one of the values with none beyond it, and NULL exactly when there are none |
| Evaluator.LikeMeansSplit | src/execution/executor.cpp:71-90 | LIKE holds exactly when the value splits into pieces that match the pattern's characters one by one |
| Evaluator.LikeMatches | src/execution/executor.cpp:71-90 | The two-row dynamic program decides LIKE |
| Evaluator.LogicIsKleene | src/execution/executor.cpp:294-320 | AND and OR give the lesser and the greater of false, unknown and true, and NOT the opposite |
| Evaluator.SumMeans | src/execution/executor.cpp:200-252 | SUM and AVG add up exactly the values that are not NULL, and report an overflow only when a partial sum has left the 64-bit range |
| Evaluator.ExtremeMeans | src/execution/executor.cpp:200-252 | MIN and MAX give one of the values, and none lies beyond it |
| Evaluator.CountMeans | src/execution/executor.cpp:205-228 | COUNT counts exactly the values that are not NULL |
| Evaluator.ChooseMeans | src/execution/executor.cpp:184-203 | IN is true when some option equals the operand, otherwise NULL when some option is NULL, otherwise false; NOT IN the opposite |
| Evaluator.EvaluateIn | src/execution/executor.cpp:184-203 | The loop over the options, with its early exit, gives what the specification gives |
| TypeSoundness.NullFreeIsSound | src/planner/planner.cpp:414-677 | An expression without NULL literals and subqueries that is given a type evaluates, on every row or group that fits the schema, to that kind, to NULL, or to an overflow or division by zero: never to a type mismatch or a missing column |
| TypeSoundness.SoundThroughoutIff | src/planner/planner.cpp:414-677 | With NULL literals, an expression and all its parts evaluate as typed exactly when no AND or OR typed as always NULL is decided by one of its sides |
| TypeSoundness.LogicIsSoundIff | src/planner/planner.cpp:612-640 | For one AND or OR: its type holds exactly when, if it is typed NULL, neither side has the deciding value |
| TypeSoundness.NullFreeIsNeverDecided | src/planner/planner.cpp:414-677 | Expressions without NULL literals meet the exact condition in every context |
| TypeSoundness.NeverDecidedIsSound | src/planner/planner.cpp:414-677 | Whoever meets the condition evaluates as typed |
| TypeCheck.NullLogicIsUnsound | src/planner/planner.cpp:414-677 | `-(NULL AND 1 = 2)` is accepted by the checker and fails with a type mismatch on every row |
| TypeSoundness.SoundForSomeRows | src/planner/planner.cpp:414-677 | `-(NULL AND c = 1)` is accepted with type NULL and evaluates as typed exactly on the rows where `c` is 1: the row decides |
| TypeCheck.Check | src/planner/planner.cpp:414-677 | The recursive checker, with its loop over IN options, computes the type function |
| TypeRules.AcceptsIff | src/planner/planner.cpp:414-677 | The checker gives an expression a type if and only if the typing rules give it, for every schema and subquery planner |
| TypeRules.OperatorIff | src/planner/planner.cpp:612-674 | An operator is accepted exactly on two operands of one kind that it takes, or with an operand that always is NULL unless it is `=` |
| PrintParse.PrintThenParse | src/parser/parser.cpp:82-138 | Lexing and parsing the text of a printable expression gives the expression back with only the end token left |
| PrintParse.PrintIsInjective | src/parser/parser.cpp:82-138 | Two printable expressions with the same text are the same |
| Precedence.SparseThenParse | src/parser/parser.cpp:390-608 | An expression of any shape, written with only those parentheses that precedence and left associativity ask for, is parsed back |
| Precedence.TwoOperators | src/parser/parser.cpp:390-608 | In `a op b op2 c` the operator that holds more tightly comes first, and of two that hold alike the left one |
| SparseText.SparseTextIsRead | src/parser/parser.cpp:390-608 | The same on text: lexing and parsing give the expression back with only the end token left |
| SparseText.PrintSparselyAndRead | src/parser/parser.cpp:390-608 | The parser itself, run on that text, gives the expression back and stops at the end |
| SparseText.MinusBeforeDigit | src/parser/lexer.cpp:260-292 | For every name and number: a minus sign right in front of the digits is read as part of the number, so that `a-1` is no difference |
| Parsing.Parser.ParseExpr | src/parser/parser.cpp:390-608 | The recursive descent over a cursor consumes exactly what the grammar says, or rejects what it rejects, and always advances |
| Parsing.PrintAndRead | src/parser/parser.cpp:390-608 | The parser itself, run on the printed text, gives the expression back and stops at the end |
| Parsing.ReadText | src/parser/parser.cpp:390-608 | Text that does not lex is a syntax error; otherwise the result is that of the grammar, and whether anything is left over is reported |
| Lexing.Tokenize | src/parser/lexer.cpp:166-390 | The scanning loop accepts exactly the texts that the lexical grammar reads, and gives the same tokens |
| Gaps.GapsDoNotShow | src/parser/lexer.cpp:195-243 | Between two parts of a text any number of white space characters, line comments and block comments gives the tokens of the two parts, whatever the parts are |
| Gaps.CaseDoesNotShow | src/parser/lexer.cpp:245-258 | Names and keywords are read alike in either case |
| Gaps.AnyTextIsRead | src/parser/lexer.cpp:294-330 | Every text, with its quotes doubled, is read back from between quotes |

## What the proofs found

- **A retried rollback can lose a page** (`AbortRetryRun.RetriedAbortLosesThePage`). When the flush of the Abort
  record fails, the transaction stays in the table and may be rolled back again. The log already says that it is
  finished, so recovery leaves its pages alone, while the second undo writes them to disk one by one, older images
  last. A crash in between leaves an uncommitted image. `AbortRetry.RetryIsRightIff` gives the exact condition; a
  transaction that updated no page twice is always safe.
- **A page in use is put on the free list** (`ReusedPage.ReusedPageIsFreed`). Redo frees a page for every committed
  PageFree record, and nothing redoes a PageAllocate record. A page that was freed and allocated again since the last
  checkpoint is free after a crash, although an acknowledged commit has it in use. `ReusedPage.InUseIsFreedIff` is
  exact.
- **A pair can be stored twice** (`StoredTwice.StoreTwice`). The comment at include/oursql/index/b_plus_tree.h:38 says
  that an identical pair is not inserted again. The check looks at one leaf only, the leftmost that the key can be
  in; `BTreeDuplicates.DuplicateIsSeen` says when that suffices. What the tree holds is therefore a multiset, and
  `Remove` removes one occurrence.
- **The type NULL of AND and OR is wrong** (`TypeCheck.NullLogicIsUnsound`). `NULL AND x` is typed NULL, but it is
  FALSE when `x` is. What is built on that type fails with a type mismatch although the checker accepted it.
  `TypeSoundness.SoundThroughoutIff` is exact about an expression with all its parts; whether such a wrong part also
  makes the whole expression wrong depends on the row (`TypeSoundness.SoundForSomeRows`), so that no condition on the
  syntax alone decides it.
- **A minus sign before a digit is never an operator** (`SparseText.MinusBeforeDigit`). `a-1` and `5-3` leave the number
  unread; with a space behind the sign they are differences (`SparseText.SparseTextIsRead`).
- **Two frames for one page** (`PoolMishaps.DoublePage`). Nothing keeps a page on the free list from being fetched. If
  one is cached when the file hands it out again, the page table forgets the older frame: exactly then
  (`PoolState.AllocatedTableIff`), and in no run that leaves the free list alone (`PoolHistory.NoPageIsDoubled`).
- **A load failure is reported once too often** (`PoolMishaps.ReportLate`). A failed read is remembered, and the next
  fetch that misses the page reports it even if the page can be read by then; `PoolHistory.MissFailsIff` says exactly
  when.
- **A deadlock that is not detected** (`UnseenDeadlock.LockUp`). The queue makes a request for IS wait behind waiters it
  does not conflict with; the graph has no edge for that. `LockQueue.WaiterHasEdgeIff` says which waiters the graph
  sees, and `LockManagement.LockManager.DetectDeadlocks` finds every deadlock among those.

## Left out

- CrashRuns.CrashRecoveryIsCorrect: runs in which a rollback is retried although its Abort record is in the log and the
  condition of `AbortRetry.RetryIsRightIff` does not hold; of these the statement is false.
- I/O that fails: page reads and writes, the free list and file growth succeed, except for reads of missing pages,
  failing log appends of a guard and failing log flushes of commit and rollback, which the model has.
- CrashRuns.UnlockedPagesAreCommitted: pages named by a PageAllocate or PageFree record. One attempt of recovery leaves
  them as the log asks for unless it gives them back (`Recovery.RecoveryManager.Recover`); over runs of the engine and
  repeated attempts only their place on the free list is followed. The link bytes of the free list are not modelled; a
  page handed out reads as zeros.
- BufferPools.BufferPool.NewPage: the page number handed out is a parameter, the append of its PageAllocate record
  succeeds, and its page lock is free; the file allocator itself is not modelled.
- BufferPools.BufferPool.FetchPage: waiting for a latch or for a page that is being loaded is a precondition, since
  frame states that only other threads can see (Loading, Evicting, Flushing) do not occur in sequential runs.
- BufferPools.BufferPool.FetchPageWrite: waiting until nobody has the page pinned is a precondition, for the same
  reason; the page lock is taken by the caller.
- Checkpoints.Checkpoint: pages may be changed but not pinned; a deletion outside any transaction that goes on during a
  checkpoint is covered by the condition, not by a run of several threads.
- BufferPools.BufferPool.ReleaseWrite: guards without a transaction are not modelled; a holder that changes the bytes
  is taken to mark the page dirty.
- HeapTables.HeapTable.InsertRow: works on the page contents that the buffer pool shows, not on pool frames, and the
  number of a new page is a parameter; corrupted and cyclic chains are excluded by the invariant instead of reported.
- HeapTables.HeapTable.DeleteRow: reserving the emptied page in the pool succeeds; giving it back to the file is left
  to `BufferPools.BufferPool.FinalizePageDeletion`.
- HeapTables.Scan: a table that is changed between two calls of the cursor.
- BPlusTreeIndex.BPlusTree.Insert: pages are tree nodes, not bytes; the page layout, `Validate`, `Destroy`, the header
  page with the root number and page faults are not modelled. Which unused page number a new page gets is left open.
- LockManagement.LockManager.Lock: mutexes and condition variables are atomic steps; a caller that waits goes on in
  `WakeUp`, in any order. Lock identifiers are numbers; how they are hashed is not modelled.
- LockManagement.LockManager.DetectDeadlocks: deadlocks in which somebody's only stuck wait is for IS with no X in the
  way; of these the statement is false (`UnseenDeadlock.LockUp`). That inserting into the map while walking it may move
  its nodes (src/transaction/lock_manager.cpp:451-475) is not modelled.
- Parsing.Parser.ParseExpr: subqueries, and the positions of tokens; only expressions are parsed, no statements.
- Parsing.ReadText: texts with subqueries are rejected, and error positions are left out.
- Lexing.Tokenize: characters are those of the C locale; line and column numbers are left out.
- TypeSoundness.NullFreeIsSound: expressions without subqueries.
- LogFile.LogManager.Append: a log number that no longer fits in 64 bits is a precondition, as is that the fields of
  the record fit their widths; likewise `FitsFields` for the engine's log.
- LogFile.LogManager.Open: creating and closing the file, and file operations that fail.
- Row codecs with a schema of 2^32 columns or more.
- Catalog, planner plans, joins, ALTER TABLE, executors for UPDATE and DELETE, the web front end and the command line.
