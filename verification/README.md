# A verified model of the in-memory indices

This repository holds five components with one theme: a fast in-memory structure that has
to agree with a simple map. This project models them in Dafny and proves that they do.

**The hand-over-hand locking tree** (`AtomicMap`, `BoxTree`, `LockedTree`,
`LockedTreeProofs`, `LockedTreeTheorems`, `LockedTreeProgress`). Boxes carry a lock and a content; `insert`,
`lookup` and `delete` take a child's lock before they give up the parent's. The model is a
step system over any number of threads: one step is one acquisition, one release, or the
reads and writes made under held locks in between, with `malloc` free to hand out any
unused address, freed ones included. Proved for every run: linearizability against an
atomic map, the range invariant, that nothing anybody can reach is freed, and deadlock
freedom. A thread with nobody in its way is done within a number of steps that the height
of the tree bounds (`LockedTreeProgress`).

**The lock-free tree** (`LockFreeTree`, `LockFreeTreeProofs`, `LockFreeTreeTheorems`,
`LockFreeTreeProgress`, `LockFreeTreeMemory`). One
step makes at most one atomic access. The model keeps `*ref` across retries, as the code
does, and lets a failed compare-and-swap overwrite it. Proved for every run: the same
linearizability, that links are only ever filled once, lock freedom with an explicit bound
on the steps of each call, and that no memory is lost.

**The sequential tree** (`SequentialTree`). The same rotate-down delete without locks,
rewritten in place through pointers to links. Proved: delete removes exactly the key and
frees exactly its node, and terminates.

**The B+-tree with its cursor** (`BTree`, `BTreeMoves`, `BTreeInsert`, `BTreeLevels`,
`BTreeNodes`, `BTreeCursor`). Fanout 15, splits that travel up, First and Last flags, and
a cursor that doubles as a finger. `BTree` to `BTreeInsert` define the tree and prove its
laws; `BTreeNodes` and `BTreeCursor` are the loops, recursions and updates of the code,
proved against them. Proved: finger search is root search, moves change the position by
exactly one, `RL_PutRecord` is map update and keeps every structural invariant, and the
depth bound that keeps the cursor inside its 20 slots.

**The allocator** (`ChunkHeap`, `AllocatorRuns`, `MemoryManager`). Memory is a map from
addresses to words, so that headers, links and client data can clash. Clients write inside
their chunks at any time. Proved for every run: chunks are disjoint, aligned and never
lost, lists are acyclic, and clients keep what they write.

**The key-slice trie** (`KeySlice`, `Trie`, `TrieMemory`). `Trie` gives the trie as a value
and proves that it is the one canonical trie of its map; `TrieMemory` has border nodes and
layer indices at addresses, rewritten in place, and is proved to hold exactly these values.

**The relational operators** (`NestedIndex`, `Projection`, `Fifo`, `IndexScan`,
`IndexJoin`). Indices over nested schemas, the index scan over a B+-tree cursor, and the
index join. The join takes inner tuples out of the lists that the index holds, so a second
outer tuple with the same key finds none: `IndexJoin.JoinIsNestedLoop` gives the exact
condition under which the join is the equi-join. Scan and join are stated by which tuples
agree in the join attributes, and the joined rows field by field.

All files are checked together: `dafny verify dfyconfig.toml`.

Where code and documentation differ, the model follows the code. The comment above
`moveToKey` in `verif/btrees/relation_mem.c` says that it returns True on finding the key;
it returns nothing, and `RL_MoveToKey` decides. The comment above `try_pre_fill` says that
negative requests are not allowed; the code handles them and the model covers them.

## Model

| member | source | states |
|---|---|---|
| AtomicMap.RunIsSequential | concurrency/bst_conc.c:61-217 | a run of the atomic map has a log of effects that, replayed one operation after the other, gives the final map and every answer |
| AtomicMap.OneEffectPerCall | concurrency/bst_conc.c:61-217 | each call takes effect exactly once, between its invocation and its return |
| AtomicMap.RunExplained | concurrency/bst_conc.c:61-217 | at every moment the log has each client's calls in call order, each once, with the operation that was called and the result that was returned; it only grows at its end, so calls of which one returned before the other began are in that order |
| AtomicMap.LookupsSeeLastWrite | concurrency/bst_conc.c:110-141 | in the log a lookup answers the value of the last insert of its key before it, NULL if the key was deleted since or never inserted |
| LockedTreeTheorems.RunGood | concurrency/bst_conc.c:61-217 | in every reachable state of any number of threads the boxes form a finite sorted tree with matching locks, and no step touches freed memory, a NULL node or a lock it does not hold |
| LockedTreeTheorems.Linearizable | concurrency/bst_conc.c:61-217 | every run of insert, lookup and delete is, step by step and thread by thread, a run of the atomic map, in which the operations that the clients call are pending and the results that they get back are those of the map |
| LockedTreeTheorems.SequentialWitness | concurrency/bst_conc.c:61-217 | one sequential order explains the whole run at every moment: the calls the clients made, in their order, with the results they got, lookups seeing the last write, and the same final contents |
| LockedTreeTheorems.SearchRange | concurrency/bst_conc.c:88-99 | the key of a thread inside an operation lies strictly between the ancestor keys of the box it has reached, whatever others inserted, rotated or unlinked since |
| LockedTreeTheorems.SafeReclamation | concurrency/bst_conc.c:155-184 | only the end of pushdown_left frees boxes, nobody else holds or waits for a box then, and from then on nobody holds it, waits for it or can reach it while it stays free |
| LockedTreeTheorems.NoDangling | concurrency/bst_conc.c:155-184 | whatever a thread, a lock or an allocated box refers to is allocated |
| LockedTreeTheorems.WaitsDeeper | concurrency/bst_conc.c:61-217 | the holder of an awaited lock itself waits only for a box strictly deeper in the present tree, also after rotations have re-parented boxes |
| LockedTreeTheorems.Unblocks | concurrency/bst_conc.c:61-217 | every wait-for chain ends at a thread that can step |
| LockedTreeTheorems.DeadlockFree | concurrency/bst_conc.c:61-217 | while an operation is unfinished some thread can take a step |
| LockedTreeTheorems.UniqueParent | concurrency/bst_conc.c:143-184 | a box is the child of one box only, so only the holder of its parent can be waiting for it |
| LockedTreeTheorems.CallStarts | concurrency/bst_conc.c:186-190 | a call starts at once, with the operation that the client asks for |
| LockedTreeProgress.StepCloser | concurrency/bst_conc.c:61-217 | each step of a thread leaves it fewer steps to its return, rotations included: after each the doomed node has a lower right subtree |
| LockedTreeProgress.AloneIsBounded | concurrency/bst_conc.c:61-217 | a thread alone takes no more steps than the height of the tree allows, whatever it does |
| LockedTreeProgress.CallEnds | concurrency/bst_conc.c:61-217 | a call with nobody else at work is at its return within 4 steps a level and 3 more, has made the change of its operation and returns its answer |
| LockedTreeProofs.StepRefines | concurrency/bst_conc.c:61-217 | each step of each thread keeps the invariant and is the atomic effect of its operation or changes nothing in the map |
| LockedTreeProofs.FillStep | concurrency/bst_conc.c:66-86 | filling an empty box with a node over two new boxes is the effect of the insert and keeps what all other threads know |
| LockedTreeProofs.OverwriteStep | concurrency/bst_conc.c:100-104 | storing a value under the lock is the effect of the insert |
| LockedTreeProofs.LookKeeps | concurrency/bst_conc.c:110-141 | what the search reads under the lock settles the answer of lookup, and of a delete that finds nothing |
| LockedTreeProofs.RotateStep | concurrency/bst_conc.c:143-153 | turn_left on two locked boxes keeps the tree sorted, every search inside it on its path, and the map unchanged |
| LockedTreeProofs.UnlinkKeeps | concurrency/bst_conc.c:155-184 | the final unlink removes exactly the deleted key and frees exactly the two child boxes |
| LockedTreeProofs.NoFault | concurrency/bst_conc.c:61-217 | no thread can dereference NULL, touch freed memory or release or free a lock it does not hold |
| BoxTree.RangeInvariant | concurrency/bst_conc.c:88-99 | a box is on the search path of exactly the keys in its key interval |
| BoxTree.TurnLeftSearch | concurrency/bst_conc.c:143-153 | after a rotation every key is found as before, and every box but the lower one stays on the search paths it was on |
| BoxTree.PullLeftSearch | concurrency/bst_conc.c:155-184 | after the unlink every other key is found as before, and every box that is left stays on its search paths |
| LockFreeTreeTheorems.RunGood | concurrency/bst_conc_nblocking.c:51-129 | in every reachable state the linked nodes form a sorted tree and no step touches memory that is not allocated |
| LockFreeTreeTheorems.Linearizable | concurrency/bst_conc_nblocking.c:51-129 | every run of insert and lookup is a run of the same atomic map, with the operations that the clients call and the results that they get back |
| LockFreeTreeTheorems.SequentialWitness | concurrency/bst_conc_nblocking.c:51-129 | one sequential order explains the whole run at every moment: calls in their order, results returned, lookups seeing the last write, and the final contents |
| LockFreeTreeTheorems.CallStarts | concurrency/bst_conc_nblocking.c:51-56 | a call starts at once, with the operation that the client asks for |
| LockFreeTreeTheorems.LinksOnlyFill | concurrency/bst_conc_nblocking.c:51-103 | a link that is not NULL never changes again, its node is never freed, and only a winning CAS fills a NULL link, always with *ref NULL, even though *ref is reused across retries |
| LockFreeTreeTheorems.RaceHasWinner | concurrency/bst_conc_nblocking.c:51-103 | a CAS that fails on a filled link has a winner: another thread linked a node there after this thread had loaded NULL |
| LockFreeTreeTheorems.CasOutcomes | concurrency/SC_atomics.c:52-54 | a CAS wins on NULL, loses a race another thread won, or loses to a stale *ref, which the write-back resets to NULL |
| LockFreeTreeTheorems.FewFailures | concurrency/bst_conc_nblocking.c:51-103 | in every run a thread fails at most twice as many CASes as the other threads win; alone it never fails |
| LockFreeTreeTheorems.FailuresPaid | concurrency/bst_conc_nblocking.c:51-103 | stale failures never outnumber lost races, and lost races never outnumber the others' wins, at every moment of a run |
| LockFreeTreeProgress.OwnCloser | concurrency/bst_conc_nblocking.c:51-129 | each own step, retries after a stale *ref included, leaves a thread fewer steps to its return |
| LockFreeTreeProgress.OthersCost | concurrency/bst_conc_nblocking.c:51-129 | a step of another thread costs a thread nothing, and at most ten steps more if it links a node |
| LockFreeTreeProgress.CallIsBounded | concurrency/bst_conc_nblocking.c:51-129 | lock freedom: a call takes at most two steps a level, four more, and ten for each node that others link before it has returned |
| LockFreeTreeProgress.StepsPaid | concurrency/bst_conc_nblocking.c:51-129 | the same at every moment of a call, for the steps taken and those still to come |
| LockFreeTreeProgress.NeverWaits | concurrency/bst_conc_nblocking.c:51-129 | a thread inside a call can always take a step |
| LockFreeTreeMemory.NoLeak | concurrency/bst_conc_nblocking.c:61-82 | in every state all allocated nodes and cells are in the tree or belong to a thread that is about to publish or to free them |
| LockFreeTreeMemory.OnlyTheTree | concurrency/bst_conc_nblocking.c:61-82 | with all threads between calls, what is allocated is exactly the tree |
| LockFreeTreeProofs.StepRefines | concurrency/bst_conc_nblocking.c:51-129 | each atomic access keeps the invariant and is the effect of its operation or changes nothing in the map |
| LockFreeTreeProofs.CasWins | concurrency/bst_conc_nblocking.c:61-72 | the CAS that links a new node is the effect of the insert |
| LockFreeTreeProofs.CasOnNull | concurrency/bst_conc_nblocking.c:61-72 | a CAS can only succeed with NULL expected: a stale *ref differs from what its cell holds |
| LockFreeTreeProofs.UndoKeeps | concurrency/bst_conc_nblocking.c:73-81 | freeing the unpublished node after a failed CAS leaves the tree and all other threads alone |
| LockFreeTreeProofs.StoreKeeps | concurrency/bst_conc_nblocking.c:96-99 | the value store on an existing key is the effect of the insert |
| SequentialTree.TreeBox.Insert | concurrency/bst_conc_cglock3.c:59-80 | insert is map update on the in-place tree, which stays a BST over exactly the allocated nodes |
| SequentialTree.TreeBox.TurnLeft | concurrency/bst_conc_cglock3.c:82-88 | the three pointer writes of a rotation give the rotated tree and leave the map and the set of nodes unchanged |
| SequentialTree.TreeBox.PushdownLeft | concurrency/bst_conc_cglock3.c:90-105 | the rotate-down loop terminates, removes exactly the doomed key and frees exactly its node |
| SequentialTree.TreeBox.Delete | concurrency/bst_conc_cglock3.c:107-125 | delete removes exactly the key x, keeps every other binding and the order, and frees one node if x was there and none if not |
| SequentialTree.TreeBox.Lookup | concurrency/bst_conc_cglock3.c:127-142 | lookup returns the stored value, or NULL for a missing key |
| SequentialTree.TurnKeeps | concurrency/bst_conc_cglock3.c:82-88 | a rotation anywhere on a search path keeps order, nodes and map |
| SequentialTree.AfterTurn | concurrency/bst_conc_cglock3.c:90-105 | after a rotation the doomed node is one step further down its own search path with a smaller right subtree |
| SequentialTree.ContentsReplace | concurrency/bst_conc_cglock3.c:59-125 | replacing the subtree on the search path of x changes the map at x only |
| SequentialTree.RepReplace | concurrency/bst_conc_cglock3.c:59-125 | writes below one link, and to that link, change the tree in memory there and nowhere else |
| BTree.FingerIsRootSearch | verif/btrees/relation_mem.c:279-320 | from any consistent cursor and for any key, AscendToParent followed by moveToKey gives the same indices on every level as the search from the root |
| BTree.ParentHasKey | verif/btrees/relation_mem.c:249-276 | a node that isNodeParent accepts below the root has the key in its separator interval |
| BTree.SearchFollows | verif/btrees/relation_mem.c:1188-1213 | if a node on a path has the key in its interval, the root search goes through that node |
| BTree.ParentIs | verif/btrees/relation_mem.c:249-276 | exactly when isNodeParent accepts a node: a leaf for keys from its first to its last, and beyond at the ends of the tree, an interior node for keys between two of its own |
| BTree.AscendStops | verif/btrees/relation_mem.c:279-292 | the climb passes no node that isNodeParent accepts, and stops at one or at the root |
| BTree.FingerStays | verif/btrees/relation_mem.c:249-292 | a search for a key of the present leaf, or beyond the last key of the tree, does not climb at all |
| BTree.RecsOrdered | verif/btrees/relation_mem.c:514-603 | a well-formed B+-tree holds its records in strictly increasing key order within its separators |
| BTreeMoves.ValidIsRank | verif/btrees/relation_mem.c:156-172 | isValid, read from the Last flag, says that there is a record behind the cursor; moving is stuck exactly where the flags say |
| BTreeMoves.NextRank | verif/btrees/relation_mem.c:382-402 | moveToNext goes one record on, or from the end of a leaf to the start of the next, and is stuck only behind the last record |
| BTreeMoves.PrevRank | verif/btrees/relation_mem.c:404-424 | moveToPrev goes one record back, or from the start of a leaf to the end of the one before |
| BTreeMoves.MovesByOne | verif/btrees/relation_mem.c:426-442 | RL_MoveToNext and RL_MoveToPrevious change the position in the sorted records by exactly one, or stay at the ends |
| BTreeMoves.MovesUndo | verif/btrees/relation_mem.c:426-442 | the two moves undo each other except at the ends |
| BTreeMoves.Traversal | verif/btrees/relation_mem.c:426-434 | n forward moves from the first position are at record n, for every n: a traversal yields each record once in key order |
| BTreeMoves.CurrentRecord | verif/btrees/relation_mem.c:294-314 | RL_GetKey and RL_GetRecord read the record at the cursor's rank, also from the end of a leaf |
| BTreeMoves.SearchRank | verif/btrees/relation_mem.c:1188-1213 | moveToKey stops before the first record whose key is not smaller |
| BTreeMoves.FoundIffStored | verif/btrees/relation_mem.c:322-333 | after the search the cursor is valid and shows the key if and only if the key is stored |
| BTreeInsert.PutOk | verif/btrees/relation_mem.c:682-770 | a put below any node keeps order, separators, uniform depth, occupancy and First/Last flags, through any cascade of splits, and upserts the sorted records |
| BTreeInsert.PutRoot | verif/btrees/relation_mem.c:682-703 | with root growth, the tree after a put is a B+-tree whose records are exactly the old map updated at the key |
| BTreeInsert.BuildHolds | verif/btrees/relation_mem.c:233-245 | after any sequence of puts the tree holds the resulting map, as many records as distinct keys, in key order, within the depth bound |
| BTreeInsert.UpsertIsUpdate | verif/btrees/relation_mem.c:705-738 | upserting the sorted records is updating the map they stand for |
| BTreeInsert.AddRecOk | verif/btrees/relation_mem.c:528-564 | a leaf with one record more, or its two halves of at least 8 around the copied-up key, are well-formed leaves with all records |
| BTreeInsert.InnerGrown | verif/btrees/relation_mem.c:566-602 | an interior node with one child more, or its two halves around the pushed-up key, are well-formed with all records |
| BTreeInsert.CountIsKeys | verif/btrees/relation_mem.c:682-770 | there are as many records as distinct keys |
| BTreeInsert.DepthBound | verif/btrees/relation_mem.c:514-603 | a tree of depth d >= 1 holds at least 2 * 8^d records, so with fewer than 2^61 the depth stays below the 20 slots |
| BTreeInsert.LeafSplit | verif/btrees/relation_mem.c:514-564 | a full leaf splits into halves of 8 and 8, all entries in order, and the first key of the upper half goes up |
| BTreeInsert.InnerSplit | verif/btrees/relation_mem.c:566-602 | a full interior node splits into 8 and 7 keys around the one that goes up, with 9 and 8 kids, all in order |
| BTreeLevels.AboveSplit | verif/btrees/relation_mem.c:739-770 | one level above a split the upper half goes in where the search went down, and findRecordIndex finds that place |
| BTreeLevels.NoSplit | verif/btrees/relation_mem.c:740-762 | where the climb ends without a split the tree is finished, and the search for the key goes on from that node |
| BTreeNodes.FindChildIndex | verif/btrees/relation_mem.c:1150-1161 | the loop finds the child whose separators enclose the key |
| BTreeNodes.FindRecordIndex | verif/btrees/relation_mem.c:1166-1182 | the loop finds the first entry whose key is not smaller |
| BTreeNodes.IsNodeParent | verif/btrees/relation_mem.c:249-276 | the code decides the predicate that makes finger search sound |
| BTreeNodes.SplitLeaf | verif/btrees/relation_mem.c:514-564 | the array loops of splitnode on a leaf give both halves and the copied-up key |
| BTreeNodes.SplitInner | verif/btrees/relation_mem.c:566-602 | the array loops of splitnode on an interior node give both halves, the middle child as ptr0 of the second, and the pushed-up key |
| BTreeNodes.ShiftIn | verif/btrees/relation_mem.c:718-730 | shifting the entries right in place and storing one is insertion into the sequence |
| BTreeNodes.AddToLeaf | verif/btrees/relation_mem.c:714-731 | a leaf with room gets the record at its place |
| BTreeNodes.AddToInner | verif/btrees/relation_mem.c:740-756 | an interior node with room gets the separator and child at its place |
| BTreeCursor.Cursor.AscendToParent | verif/btrees/relation_mem.c:279-292 | the recursion stops at the lowest level that is sure to be on the search path, or at the root |
| BTreeCursor.Cursor.MoveToKey | verif/btrees/relation_mem.c:1188-1213 | the descent records in the cursor the search path of the key below the node |
| BTreeCursor.Cursor.MoveToFirst | verif/btrees/relation_mem.c:1216-1233 | the descent records the leftmost path |
| BTreeCursor.Cursor.MoveToLast | verif/btrees/relation_mem.c:1235-1252 | the descent records the rightmost path, ending behind the last record |
| BTreeCursor.Cursor.GoToKey | verif/btrees/relation_mem.c:316-320 | from any consistent cursor the result is the root search path of the key, within the 20 slots |
| BTreeCursor.Cursor.MoveToNext | verif/btrees/relation_mem.c:382-402 | the ascending loop and the descent make the specified move and keep the cursor consistent |
| BTreeCursor.Cursor.MoveToPrev | verif/btrees/relation_mem.c:404-424 | the ascending loop and the descent make the specified move, with ptr0 left of entry 0 |
| BTreeCursor.Cursor.RLMoveToNext | verif/btrees/relation_mem.c:426-434 | the rank grows by one, or stays behind the last record |
| BTreeCursor.Cursor.RLMoveToPrevious | verif/btrees/relation_mem.c:436-442 | the rank shrinks by one, or stays at 0 |
| BTreeCursor.Cursor.RLMoveToFirst | verif/btrees/relation_mem.c:355-362 | the cursor is at rank 0, and the result says whether there is a record |
| BTreeCursor.Cursor.RLIsEmpty | verif/btrees/relation_mem.c:458-465 | the root has no keys exactly when there are no records |
| BTreeCursor.Cursor.RLGetKey | verif/btrees/relation_mem.c:305-314 | the key of the record at the cursor's rank |
| BTreeCursor.Cursor.RLGetRecord | verif/btrees/relation_mem.c:294-303 | the record at the cursor's rank |
| BTreeCursor.Cursor.RLMoveToKey | verif/btrees/relation_mem.c:322-333 | True if and only if the key is stored, with the cursor then on its record |
| BTreeCursor.Cursor.PutEntry | verif/btrees/relation_mem.c:682-770 | the recursion up the cursor's levels leaves the whole tree as the put specifies, root growth and record count included, and the cursor on the record |
| BTreeCursor.Cursor.RLPutRecord | verif/btrees/relation_mem.c:233-245 | map update at the key; the B+-tree invariant, numRecords and depth are kept; the cursor stands just after the key |
| BTreeCursor.PutFits | verif/btrees/relation_mem.c:233-245 | with fewer than 2^61 records after it, a put stays within the 20 slots |
| ChunkHeap.SizeClasses | memmgr/malloc.c:10-20 | size2bin picks the smallest bin that fits, and a chunk's size leads back to its bin |
| ChunkHeap.TightFit | memmgr/malloc.c:10-20 | no aligned chunk that is large enough for a request is smaller than that of its bin |
| ChunkHeap.BlockIsFull | memmgr/malloc.c:33-49 | a block is carved without gaps and holds exactly the chunks that fit: one more would leave it |
| ChunkHeap.CarvedInside | memmgr/malloc.c:33-49 | every carved chunk is aligned and lies in its block |
| ChunkHeap.CarvedDisjoint | memmgr/malloc.c:33-49 | two carved chunks share no byte |
| ChunkHeap.CarveOk | memmgr/malloc.c:33-59 | a carved block adds its chunks to its bin's list and keeps every other chunk and all live data |
| ChunkHeap.PopOk | memmgr/malloc.c:99-113 | taking the first chunk keeps lists acyclic, headers, disjointness and live data |
| ChunkHeap.PushOk | memmgr/malloc.c:127-132 | putting a chunk back keeps lists acyclic, headers, disjointness and live data |
| ChunkHeap.UnmapOk | memmgr/malloc.c:134-136 | unmapping exactly a large chunk's mapping keeps everything else |
| AllocatorRuns.StepOk | memmgr/malloc.c:33-153 | every malloc, free, pre-fill, mapping and client write keeps the allocator invariant, and all but a client's own writes keep the data of live chunks |
| AllocatorRuns.RunOk | memmgr/malloc.c:33-153 | the invariant holds in every state of every run |
| AllocatorRuns.WritesLast | memmgr/malloc.c:99-153 | a word a client wrote stays until the client frees the chunk or writes it again |
| AllocatorRuns.StepConserves | memmgr/malloc.c:33-153 | no event takes a chunk from a bin; a pre-fill, or a malloc that fills an empty list, adds exactly the chunks that its block yields, and no other event adds any |
| AllocatorRuns.Conserved | memmgr/malloc.c:33-153 | in every state of every run, free plus live chunks of a bin are the blocks carved for it times the yield of a block: none is lost, made up or handed out twice |
| AllocatorRuns.ChunksStay | memmgr/malloc.c:33-153 | a chunk carved for a bin is on that bin's list or live in every later state of the run |
| AllocatorRuns.FreeThenMalloc | memmgr/malloc.c:99-132 | malloc after free in one bin grants the freed chunk again and leaves all but its first word as before the two calls |
| AllocatorRuns.FreePlusLive | memmgr/malloc.c:99-132 | the chunks of a bin are its free chunks and its live ones, and no chunk is both |
| AllocatorRuns.MallocSmallOk | memmgr/malloc.c:99-113 | a small malloc grants an aligned chunk that is free, large enough and apart from all live ones |
| AllocatorRuns.MallocLargeOk | memmgr/malloc.c:115-124 | a large malloc grants a mapping of its own |
| AllocatorRuns.WriteOk | memmgr/malloc.c:33-49 | a client's write inside its chunk hits no header and no link |
| MemoryManager.Manager.ListFromBlock | memmgr/malloc.c:33-49 | the loop writes exactly (BIGBLOCK-WASTE)/(s+WORD) headers and links, the last one to tl, and nothing else |
| MemoryManager.Manager.PreFillBlock | memmgr/malloc.c:56-59 | the block's chunks are put in front of the bin's list |
| MemoryManager.Manager.TryPreFill | memmgr/malloc.c:65-85 | the count never overflows int and is exactly the number of chunks added, those of the blocks mmap0 has mapped meanwhile; it falls short of the request only when a call of mmap0 failed or one more block would leave int, no call has failed where it meets the request, and it goes beyond by less than a block |
| MemoryManager.Manager.AddBlock | memmgr/malloc.c:78-82 | one call of mmap0: a block's chunks more in the bin and no other change, or NULL and nothing changed |
| MemoryManager.Manager.FillBin | memmgr/malloc.c:88-96 | a fresh block as a list of free chunks, or NULL with nothing changed |
| MemoryManager.Manager.MallocSmall | memmgr/malloc.c:99-113 | pops the bin, filling it first if it is empty |
| MemoryManager.Manager.MallocLarge | memmgr/malloc.c:115-124 | maps the chunk with its header, or returns NULL with nothing changed |
| MemoryManager.Manager.Malloc | memmgr/malloc.c:148-153 | NULL with nothing changed, only when mmap0 failed and never with a chunk in the list; or else a chunk nobody owns of at least the requested size, aligned, mapped and disjoint from all live chunks |
| MemoryManager.Manager.ClientWrite | memmgr/malloc.c:22-27 | a store of a client anywhere inside its chunk, the link word included, is a write event and leaves the allocator in order |
| MemoryManager.Manager.FreeSmall | memmgr/malloc.c:127-132 | the chunk goes to the front of its bin's list |
| MemoryManager.Manager.FreeLarge | memmgr/malloc.c:134-136 | exactly the chunk's mapping is unmapped |
| MemoryManager.Manager.Free | memmgr/malloc.c:138-146 | the chunk goes back to its own bin or is unmapped, as its header says; all other live data stays |
| KeySlice.GetNextKeySlice | src/btrees_and_tries/index_string.c:92-106 | the loop packs the first eight bytes of a string of any length big-endian, padded with zeros |
| KeySlice.GetShortKeySlice | src/btrees_and_tries/util.c:101-119 | the two loops pack a string of at most eight bytes to the same word |
| KeySlice.KeySliceToStr | src/btrees_and_tries/util.c:123-137 | the loop unpacks the first len bytes of a word |
| KeySlice.SliceRoundTrip | src/btrees_and_tries/util.c:101-137 | unpacking inverts packing for every string of at most eight bytes |
| KeySlice.SliceOrder | src/btrees_and_tries/util.c:101-119 | comparing (slice, length) pairs is comparing byte strings lexicographically, hence injective |
| Trie.StrEqual | src/btrees_and_tries/index_string.c:108-120 | the loop decides equality of two byte strings |
| Trie.CreatePairCanon | src/btrees_and_tries/index_string.c:515-563 | create_pair makes the trie of two different keys however long their common prefix |
| Trie.PutCanon | src/btrees_and_tries/index_string.c:565-624 | put takes the trie of a map to the trie of the updated map |
| Trie.LookupCanon | src/btrees_and_tries/kvstore.c:384-424 | lookup in the trie of a map answers as the map does, NULL for a missing key |
| Trie.PutThenLookup | src/btrees_and_tries/index_string.c:565-624 | after put(k, v) looking up k gives v and any other byte string its old answer, zero bytes and shared prefixes included |
| Trie.PutsThenLookup | src/btrees_and_tries/index_string.c:565-624 | after any sequence of puts lookups answer as the resulting map |
| Trie.CanonUnique | src/btrees_and_tries/index_string.c:515-624 | a map has one trie |
| Trie.CanonInjective | src/btrees_and_tries/index_string.c:515-624 | a trie stands for one map |
| Trie.ShapeIsCanonical | src/btrees_and_tries/index_string.c:515-624 | two sequences of puts build the same trie if and only if they make the same map |
| Trie.PutsCommute | src/btrees_and_tries/index_string.c:565-624 | puts of different keys commute in any trie that puts can build |
| Trie.TailSize | src/btrees_and_tries/index_string.c:152-164 | a border node links to a further layer only for two or more longer keys |
| Trie.ShortHeld | src/btrees_and_tries/index_string.c:301-311 | a key of at most eight bytes is held by its length in the node of its slice, exactly if the map has it |
| Trie.LongKeyHeld | src/btrees_and_tries/index_string.c:152-164 | a node without a tail has no longer key of its slice, one with a suffix exactly the key with that rest |
| Trie.LinkHasTwo | src/btrees_and_tries/index_string.c:152-164 | a node with a further layer has two longer keys of its slice |
| TrieMemory.TrieStore.NewBorderNode | src/btrees_and_tries/index_string.c:184-197 | an empty border node in memory nobody used |
| TrieMemory.TrieStore.SetPrefixValue | src/btrees_and_tries/index_string.c:212-215 | the node holds the value at that length; its tail is unchanged |
| TrieMemory.TrieStore.SetSuffixValue | src/btrees_and_tries/index_string.c:222-233 | the node holds the one longer key; its prefixes are unchanged |
| TrieMemory.TrieStore.SetLink | src/btrees_and_tries/index_string.c:278-286 | the node links to the layer; its prefixes are unchanged |
| TrieMemory.TrieStore.SetValue | src/btrees_and_tries/index_string.c:301-311 | a short key is stored by its length, a longer one as suffix |
| TrieMemory.TrieStore.ExportSuffixValue | src/btrees_and_tries/index_string.c:259-272 | takes suffix and value out of the node; True if and only if it has a suffix, and otherwise nothing changes |
| TrieMemory.TrieStore.CreatePair | src/btrees_and_tries/index_string.c:515-563 | new memory forms the trie of the pair and nothing older changes |
| TrieMemory.TrieStore.Put | src/btrees_and_tries/index_string.c:565-624 | border nodes and indices rewritten in place form exactly the trie that the put specifies; memory outside that trie is unchanged |
| TrieMemory.TrieStore.Lookup | src/btrees_and_tries/kvstore.c:384-424 | the walk through memory returns what the trie holds for the key |
| TrieMemory.TailTells | src/btrees_and_tries/index_string.c:274-299 | keySuffix and suffixLink tell which of suffix, link and nothing a node has |
| NestedIndex.LookupList | src/db_ops/stringlist.c:48-55 | the walk finds the first cell with the key |
| NestedIndex.InsertList | src/db_ops/inthash.c:44-66 | the walk overwrites the first cell with the key or appends one |
| NestedIndex.PutCellOrder | src/db_ops/inthash.c:44-66 | a key that is there keeps its cell, a new one gets the last, and no other cell changes |
| NestedIndex.InsertLookup | src/db_ops/tuple_schema.c:26-43 | an index over any nested schema is a map: after an insert the key has the new value and every other key the old one |
| NestedIndex.NewOk | src/db_ops/tuple_schema.c:21-24 | a new index is empty for every key |
| NestedIndex.IndexInsert | src/db_ops/tuple_schema.c:26-35 | insertion through the method tables, new sub-indices included, computes the map update |
| NestedIndex.IndexLookup | src/db_ops/tuple_schema.c:37-43 | lookup through the method tables |
| Projection.GetOffset | src/db_ops/db_operations_light.c:154-168 | the offset of the first attribute with the name, -1 if there is none, exit on another domain or an empty list |
| Projection.OffsetIs | src/db_ops/db_operations_light.c:154-168 | the first attribute of the name decides: its offset with the right domain, exit with another; without one -1, or exit for an empty list |
| Projection.ValueIs | src/db_ops/db_operations_light.c:170-173 | the value of an attribute is the field at the place of the first attribute of its name |
| Projection.KeyOf | src/db_ops/db_operations_light.c:175-181 | the projection key holds the values of the attributes, each at its place, and fits the schema made from them |
| Projection.SameKey | src/db_ops/db_operations_light.c:175-181 | two tuples have the same key if and only if they agree on all join attributes |
| IndexScan.KeysAgree | src/db_ops/db_operations_light.c:175-198 | the keys the index is built and probed with are equal if and only if the tuples agree in all join attributes |
| IndexScan.MatchesAgree | src/db_ops/db_operations_light.c:183-198 | the tuples of a key are those at exactly the places of the scan that agree, in scan order |
| IndexScan.IndexFinds | src/db_ops/db_operations_light.c:226-229 | under the key of a tuple the index has a list of exactly the inner tuples that agree with it, in scan order, and nothing if there are none |
| IndexScan.AddrsInKeyOrder | src/db_ops/db_operations_light.c:100-107 | the records of the B+-tree give the values of its map in increasing key order, each once |
| Fifo.Queue.Put | src/db_ops/queue2.c:10-23 | the linked queue gains the element at its end |
| Fifo.Queue.Get | src/db_ops/queue2.c:31-37 | the first element is taken off |
| Fifo.Queue.Empty | src/db_ops/queue2.c:25-29 | whether the queue is empty, also after the last element has been taken |
| IndexScan.SeqScanNext | src/db_ops/db_operations_light.c:100-107 | the next record of the cursor, NULL behind the last |
| IndexScan.Materialize | src/db_ops/db_operations_light.c:73-82 | materializing a scan yields the values of the stored map in increasing key order, each once |
| IndexScan.Scan | src/db_ops/db_operations_light.c:183-198 | under the key of each tuple the index has a list of exactly the tuples that agree with it in the join attributes, in scan order, each key with a list of its own |
| IndexScan.AddTuple | src/db_ops/db_operations_light.c:189-196 | one round of the scan adds the tuple to its key's list and to no other |
| IndexJoin.Join.Advance | src/db_ops/db_operations_light.c:226-229 | the loop goes on to an outer tuple with inner tuples left, or to the end |
| IndexJoin.Join.Next | src/db_ops/db_operations_light.c:224-253 | each call yields the joined tuple of the next pending match: the outer tuple, then the inner fields not joined on, in order; NULL exactly when none is left |
| IndexJoin.CopyRest | src/db_ops/db_operations_light.c:241-251 | the loop copies the inner fields that are not joined on, in attribute order |
| IndexJoin.RestAt | src/db_ops/db_operations_light.c:241-251 | the value of an inner attribute that is not joined on is copied to the place that its number among those attributes gives it |
| IndexJoin.RestSize | src/db_ops/db_operations_light.c:241-251 | nothing else is copied |
| IndexJoin.MergedIs | src/db_ops/db_operations_light.c:231-251 | the joined tuple field by field: its length, the whole outer tuple first, and each inner field that is not joined on at its place behind |
| IndexJoin.NestedAgree | src/db_ops/db_operations_light.c:224-253 | the nested loop yields exactly the pairs that agree in the join attributes, in outer and then inner order |
| IndexJoin.FirstsAreAgreeing | src/db_ops/db_operations_light.c:224-253 | what the join yields are exactly the agreeing pairs of the first outer tuple of each key, in that order |
| IndexJoin.DrainedIsFirsts | src/db_ops/db_operations_light.c:224-253 | draining the join yields the matches of the first outer tuple of each key, whatever the outer tuples are |
| IndexJoin.JoinIsNestedLoop | src/db_ops/db_operations_light.c:183-253 | draining equals the nested-loop equi-join if and only if no outer tuple with a match repeats an earlier key |
| IndexJoin.JoinCanDiffer | src/db_ops/db_operations_light.c:183-253 | two outer tuples with one key and one inner tuple: the nested loop yields two matches, the join one |
| IndexJoin.DrainJoin | src/db_ops/db_operations_light.c:73-82 | materializing the join yields all pending matches, merged, in order |
| IndexJoin.JoinRelations | src/db_ops/db_operations_light.c:183-253 | scan, index and join of two stored relations end to end: a joined row, field by field, for each inner tuple that agrees with the first outer tuple of its key, in order |

## Left out

- BTreeCursor.Cursor.RLPutRecord: requires that the tree stays within MAX_TREE_DEPTH levels after the put. The code takes this for granted and would write past the 20 slots of the cursor in a deeper tree; `BTreeCursor.PutFits` shows that with fewer than 2^61 records it always holds.
- BTreeCursor.Cursor.PutEntry: nodes are values, so a node that the code overwrites through `ancestors[level]` is replaced inside the root value at that level of the path. Node addresses and aliasing between two cursors are not modelled, and `ancestors` is read off the path.
- MemoryManager.Manager.Malloc: the bound on the request is the bound stated in `memmgr/spec_malloc.v`; beyond it the length of the mapping wraps around.
- MemoryManager.Manager.MallocLarge: memory is modelled in words, so a last partial word of a large chunk counts as whole; munmap is taken to succeed.
- SequentialTree.TreeBox.Insert: the address that malloc returns is a parameter; running out of memory ends the program outside memmgr and is not modelled there.
- TrieMemory.TrieStore.Put: the inner index of a layer is taken by its ordered-map contract, not as the B+-tree with its own cursor, and `prefixFlags` is the set of its one bits.
- KeySlice.GetNextKeySlice: or-ing a byte into freed low bits is written as addition.
- NestedIndex.IndexInsert: a sub-index is a value inside the outer index, written back after an insert, where the code updates it through a pointer; bucket lists are sequences of cells.
- IndexScan.Scan: lists are sequences at addresses; `Fifo` shows that the linked queue behaves as such a sequence. Addresses of lists are numbered as they are made.
- IndexJoin.JoinRelations: the outer iterator is materialized before the join starts; the domains of the join attributes are required to agree, which the code leaves as a question in a comment.
- IndexJoin.Join.Next: sizes of malloc'ed blocks and freeing of the joined tuples are not modelled.
- In the locking tree each node belongs to the one box that points to it, so box and node are one entry of the heap; the lookup's read of a child after acquiring its lock is taken as one step with the search loop.
- LockedTreeProgress.CallEnds: speaks of a thread that finds no lock taken; with others at work a thread can be overtaken without bound, because the locks are not fair, and `LockedTreeTheorems.DeadlockFree` is what holds.
- LockFreeTreeMemory.NoLeak: the cell `ref` that an insert allocates for itself and frees at its end is a local variable of the thread.
- Weak memory: all atomics are sequentially consistent in the code and in the model.
- `tree_free`, `treebox_free`, `RL_DeleteRelation`, `RL_FreeCursor`, printing, timing, test drivers and generated Coq files.
- Deletion from the B+-tree: commented out in the code.
- Several cursors on one B+-tree across a put: the code does not tell other cursors.
- The trie's cursors, `KV_Put`, `concurrency/bst_conc_nblocking2.c` and `concurrency/bst_conc_nblocking4.c`: unfinished code.
- `tuplekey`, `permuter.c`, `stringbag.c`, `linked_list.c`, string-list cursors, and the older copies of the operators and of the B+-tree.
