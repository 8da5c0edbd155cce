# Sartoris and Asgard: a verified model of the core

Sartoris is a microkernel; Asgard is the set of libraries and services that runs on it. This project
models eleven pieces of their code whose correctness is not plain from reading them, and proves what
they promise. Each piece has a module of its own.

| module | piece |
|---|---|
| `AvlSpec`, `AvlHeap` | the AVL trees of asgard/lib/structures/avltree.c, on values and on linked nodes |
| `TicketMutex` | the queueing mutex of asgard/lib/critical_section.c, as a state machine over its shared reads and writes |
| `FirstFit` | `malloc` and `free` of asgard/lib/m_malloc.c, on block headers in memory |
| `Sha1`, `Sha1Vector` | asgard/lib/structures/sha-1.c against RFC 3174, and its message "abc" |
| `PrdList` | the physical region descriptor lists of asgard/services/atac/ATAIOPCI.C |
| `Pio` | the sector loops of asgard/services/atac/ataioreg.c against a device that answers anything |
| `Slab` | the page containers of sartoris/mk/containers.c |
| `Ports` | message ports of sartoris/mk/message.c, on the limits of salloc.c and the containers of `Slab` |
| `Interrupts` | the stack of nested interrupts of sartoris/mk/interrupt.c |
| `Ofs` | the disk layout and bitmap allocation of asgard/tools/mkofs.c |
| `SymbolLookup` | the ELF symbol lookup of asgard/services/ld/ld.c |

`Sequences` and `Arithmetic` have the facts on sequences without repetitions, and on products and remainders,
that the others share.

Code that updates things in place is modelled by classes and methods that do, each proved against a
function or a relation on values, and the theorems are about those. Memory that the original reaches
through pointers is a map from addresses (or slots) to what is stored there, except in `AvlHeap`, which
has node objects. `malloc` failing, pages that the operating system may or may not supply, device
answers, permission tests and what architecture code returns are parameters.

## What the code does not do

Some things that the code, its comments or its use suggest turn out not to hold. In each case the model
follows the code, one member gives a case that fails, and another says exactly when it works.

- **`free` loses the free list.** A freed block below every free block that does not touch the next free
  block is linked from the head of the list, not to it, so the two point at each other
  (`FirstFit.TwoAllocationsOneFree`). The buffer is a heap again after a `free` if and only if there is a
  free block below, or the next block is free, or nothing is free (`FirstFit.HeapIffCanFree`).
- **`malloc` sizes.** `ecalloc` multiplies in 32 bits. A block given covers what was asked for if and only if
  the product is below 2^32 (`FirstFit.Heap.Ecalloc`); 65536 elements of 65536 bytes are a case
  (`FirstFit.EcallocTooSmall`).
- **SHA-1 lengths.** The padded size is computed in 32 bits. It is right exactly for messages shorter than
  2^29 - 72 bytes (`Sha1.PaddedSizeExact`); the next length, below the announced limit, gives 0
  (`Sha1.PaddedSizeWraps`).
- **The mutex and 65000 threads.** Exclusion and order hold in every run in which at most MAXTURN threads
  hold or wait, and any step that makes them more can be followed by steps after which two threads hold
  (`TicketMutex.LimitExact`). MAXTURN + 1 threads that wait one after the other are a case
  (`TicketMutex.OneWaiterTooMany`).
- **Bitmap sizes.** `BITS_PER_DEVBLOCK` is a product without parentheses, so `bitmaps_size` divides by 512
  and multiplies by 8. It always reserves enough, and the least possible just below 512 bits
  (`Ofs.SectorsSuffice`); 512 bits get 8 sectors for 1 (`Ofs.SectorsWasted`).
- **A block left unused.** The second sizing loop of `format` stops when a block would leave nothing over.
  When it is done one more block fits if and only if it would fill the storage to the last byte, and two never do
  (`Ofs.MoreBlocks`). Twelve sectors are a case (`Ofs.SizeTwelveSectors`).
- **Large images.** `format` takes an unsigned size and keeps what remains of it in an `int`. With less than 2 GB of
  metadata the layout accounts for the storage if and only if the reserved sectors fit in it and leave less than 2^31
  bytes; otherwise it has no node and no block (`Ofs.SizedExact`). Three gigabytes are a case
  (`Ofs.SizeThreeGigabytes`).
- **The OFS group header** is written at a byte offset and looked for at a sector. They are the same place if
  and only if the metadata size is a multiple of 512 (`Ofs.HeaderPlaced`); 100 bytes are a case where they are
  not (`Ofs.HeaderMisplaced`).
- **Blocks that do not exist.** The block bitmap is read in whole bytes. `get_free_blocks` gives out blocks
  of the group if and only if as many as asked for are clear among those (`Ofs.BlocksExist`). A full image of the
  size used when none is given still has block 348 of 348 to give out (`Ofs.FloppyOverrun`).
- **LARGE areas outside the buffer.** The address of the buffer is rounded, its size is not. List and data area
  lie in the buffer the caller gave if and only if there is as much to spare as the start was moved up, and a list at
  the very start did not lose the byte of an odd address (`PrdList.AreasInBuffer`, `PrdList.AreasOutside`).
- **A thread that is not resumed.** A bracketed run of nested interrupts gives the processor back to the
  thread it took it from if and only if that thread is on top of the interrupt stack, or the stack is empty
  and the thread is in no interrupt (`Interrupts.BracketedRestores`). Being in no interrupt is not enough
  (`Interrupts.DetourLost`).

Two more are said by the contract of the method itself, for all inputs:

- **`send_msg` crosses two error codes**: a full port reports that it is disabled, and a disabled one that it
  is full (`Ports.Messaging.SendMsg`).
- **The global scope has the linker in it**, against the comment at its head
  (`SymbolLookup.Linker.BuildGlobalScope`).

## Model

| member | source | states |
|---|---|---|
| `AvlSpec.RotRightContents` | asgard/lib/structures/avltree.c:41-50 | a right rotation keeps the bindings, the order of keys and the number of nodes |
| `AvlSpec.RotLeftContents` | asgard/lib/structures/avltree.c:30-39 | the same of a left rotation |
| `AvlSpec.DoubleRightContents` | asgard/lib/structures/avltree.c:62-79 | the double rotation keeps the contents, and turns a tree two higher on the left into a balanced one of the height of its left subtree |
| `AvlSpec.DoubleLeftContents` | asgard/lib/structures/avltree.c:106-123 | the mirror image |
| `AvlSpec.LeftGrownRebalances` | asgard/lib/structures/avltree.c:53-91 | after the left subtree grew, the tree is balanced with the same contents, and the result says whether its height grew |
| `AvlSpec.RightGrownRebalances` | asgard/lib/structures/avltree.c:93-131 | the same for the right subtree |
| `AvlSpec.LeftShrunkRebalances` | asgard/lib/structures/avltree.c:187-232 | after the left subtree shrank, the tree is balanced with the same contents, and the result says whether its height shrank |
| `AvlSpec.RightShrunkRebalances` | asgard/lib/structures/avltree.c:234-279 | the same for the right subtree |
| `AvlSpec.InsertAdds` | asgard/lib/structures/avltree.c:134-170 | insertion adds exactly one binding and one node to a valid tree and keeps it valid; it is an error just for a key already there or when memory is out |
| `AvlSpec.FindHighestTakes` | asgard/lib/structures/avltree.c:282-309 | the key and payload moved are those of the highest key, which is the one binding lost |
| `AvlSpec.FindLowestTakes` | asgard/lib/structures/avltree.c:311-333 | the same for the lowest key |
| `AvlSpec.RemoveDeletes` | asgard/lib/structures/avltree.c:336-381 | removal takes away exactly the binding of the key and one node, keeps the tree valid, and is an error just when the key is absent |
| `AvlSpec.RemoveRoot` | asgard/lib/structures/avltree.c:359-380 | the case of a key found at the root, whichever neighbour takes its place |
| `AvlSpec.GetValueLooksUp` | asgard/lib/structures/avltree.c:395-407 | the search finds what the map of bindings holds, and NULL for other keys |
| `AvlSpec.InOrderLists` | asgard/lib/structures/avltree.c:419-433 | the visit lists every key once, in increasing order |
| `AvlSpec.SizeCounts` | asgard/lib/structures/avltree.c:414-417 | the number of nodes is the number of bindings |
| `AvlHeap.AvlRotLeft` | asgard/lib/structures/avltree.c:30-39 | on the linked nodes, what the rotation of values does, with the same nodes |
| `AvlHeap.AvlRotRight` | asgard/lib/structures/avltree.c:41-50 | the mirror image |
| `AvlHeap.AvlLeftGrown` | asgard/lib/structures/avltree.c:53-91 | refines the rebalancing of values, with the same nodes |
| `AvlHeap.AvlRightGrown` | asgard/lib/structures/avltree.c:93-131 | likewise |
| `AvlHeap.AvlLeftShrunk` | asgard/lib/structures/avltree.c:187-232 | likewise |
| `AvlHeap.AvlRightShrunk` | asgard/lib/structures/avltree.c:234-279 | likewise |
| `AvlHeap.IAvlInsert` | asgard/lib/structures/avltree.c:134-170 | refines insertion; nodes stay separate and at most new ones are added |
| `AvlHeap.AvlFindHighest` | asgard/lib/structures/avltree.c:282-309 | refines taking out the highest node, whose key and payload the target gets |
| `AvlHeap.AvlFindLowest` | asgard/lib/structures/avltree.c:311-333 | likewise for the lowest |
| `AvlHeap.IAvlRemove` | asgard/lib/structures/avltree.c:336-381 | refines removal, with no node that was not there before |
| `AvlHeap.IAvlGetIndexes` | asgard/lib/structures/avltree.c:419-433 | the array gets the keys in order after what is already in it |
| `AvlHeap.AvlTree.constructor` | asgard/lib/structures/avltree.c:23-28 | a valid tree without bindings |
| `AvlHeap.AvlTree.Insert` | asgard/lib/structures/avltree.c:172-184 | the contents get the new binding and `total` one more; on error nothing changes; the height grows by one just when the result says so |
| `AvlHeap.AvlTree.Remove` | asgard/lib/structures/avltree.c:383-392 | the contents lose the key and `total` one; the height shrinks by one just when the result says so |
| `AvlHeap.AvlTree.GetValue` | asgard/lib/structures/avltree.c:409-412 | the value bound to the key, or NULL |
| `AvlHeap.AvlTree.GetIndexes` | asgard/lib/structures/avltree.c:435-445 | a new array of exactly the keys, in increasing order, and their number |
| `TicketMutex.StepRefines` | asgard/lib/critical_section.c:41-123 | every block or shared access of every thread, but for one turn too many, keeps the invariant and is a step of a first-come first-served lock |
| `TicketMutex.RunRefines` | asgard/lib/critical_section.c:41-123 | so every run in which at most MAXTURN threads hold or wait refines that lock |
| `TicketMutex.MutualExclusion` | asgard/lib/critical_section.c:41-123 | two threads never hold the mutex at the same time |
| `TicketMutex.OwnershipIsHolding` | asgard/lib/critical_section.c:137-153 | `own_mutex` is true of exactly the thread that holds the mutex or is about to return with it |
| `TicketMutex.RecursionCounts` | asgard/lib/critical_section.c:41-101 | in every run the recursion count of a holder is its waits since it got the mutex, less one, less its leaves |
| `TicketMutex.LeaveReleases` | asgard/lib/critical_section.c:82-123 | in every run a holder that has waited k times since it got the mutex is outside at exactly its max(1, k-1)-th leave; a leave by any other thread changes nothing |
| `TicketMutex.WaitReturns` | asgard/lib/critical_section.c:41-72 | in every run a wait returns at once with the mutex if and only if nobody holds it or waits, or the thread has it already |
| `TicketMutex.ReleaseHandsOver` | asgard/lib/critical_section.c:41-123 | after a release with nobody waiting the next wait of any thread gets the mutex; otherwise the one that has waited longest is the one it was given to, and gets in by steps of its own |
| `TicketMutex.ServedInOrder` | asgard/lib/critical_section.c:66-79 | the waiter that gets the mutex is the one that has waited longest |
| `TicketMutex.OneGrantee` | asgard/lib/critical_section.c:102-114 | a mutex handed over has exactly one thread that can take it |
| `TicketMutex.NobodyForgotten` | asgard/lib/critical_section.c:41-123 | threads wait only while somebody holds the mutex or is being given it |
| `TicketMutex.OutstandingTurns` | asgard/lib/critical_section.c:66-72 | whether the mutex is held or handed over, the turns being waited for are the interval from the locking turn to the available turn, going round at MAXTURN; the locking turn is among them just when it is handed over and not yet seen |
| `TicketMutex.TurnsUnique` | asgard/lib/critical_section.c:66-72 | no two waiters share a turn |
| `TicketMutex.HandOverAdvances` | asgard/lib/critical_section.c:74-79 | every step of the next thread brings it nearer to the mutex and no step of another sets it back |
| `TicketMutex.CrowdGathers` | asgard/lib/critical_section.c:41-72 | the runs in which any number of threads below MAXTURN wait for one are legal, and where they lead |
| `TicketMutex.OverflowIs` | asgard/lib/critical_section.c:41-79 | the one step excluded is the one that makes more than MAXTURN threads hold or wait |
| `TicketMutex.OverflowBreaks` | asgard/lib/critical_section.c:66-79 | from every state reached, held or handed over, that step can be followed by steps after which two threads hold the mutex |
| `TicketMutex.LimitExact` | asgard/lib/critical_section.c:41-123 | so after every legal run a step keeps the refinement if and only if it leaves at most MAXTURN threads that hold or wait, and otherwise leads to two holders |
| `TicketMutex.OneWaiterTooMany` | asgard/lib/critical_section.c:66-79 | the run in which MAXTURN + 1 threads wait one after the other, and its two holders |
| `TicketMutex.MutexCell.constructor` | asgard/lib/critical_section.c:26-37 | the state every run starts in |
| `TicketMutex.MutexCell.WaitMutex` | asgard/lib/critical_section.c:41-72 | the fields change as the wait step of the state machine says, which `TicketMutex.WaitReturns` describes over runs |
| `TicketMutex.MutexCell.LeaveMutex` | asgard/lib/critical_section.c:82-123 | the fields change as the leave step says, which `TicketMutex.LeaveReleases` and `TicketMutex.ReleaseHandsOver` describe over runs |
| `FirstFit.Heap.constructor` | asgard/lib/m_malloc.c:41-58 | one free block fills the buffer, wherever it lies without the address 2^31 inside |
| `FirstFit.Heap.Ecalloc` | asgard/lib/m_malloc.c:81-167 | with a product of the arguments below 2^32, NULL just when every free block is smaller than it, and then nothing changes; otherwise the first one large enough is used, whole or split, and the block given is new, in the buffer and less than a header larger than the product; in any case a block given covers the product if and only if that is below 2^32 |
| `FirstFit.EcallocTooSmall` | asgard/lib/m_malloc.c:81-142 | 65536 elements of 65536 bytes are given a block smaller than a header |
| `FirstFit.Heap.FindFit` | asgard/lib/m_malloc.c:94-102 | the walk of the list stops at the first block in the buffer that fits |
| `FirstFit.Heap.Free` | asgard/lib/m_malloc.c:169-244 | exactly the block freed stops being live and joins its free neighbours, when `CanFree` holds; otherwise the list goes round; other addresses are ignored |
| `FirstFit.Heap.FindPlace` | asgard/lib/m_malloc.c:187-195 | the walk, which compares addresses as `int`, ends at the free blocks on both sides of the block |
| `FirstFit.TiledOrder` | asgard/lib/m_malloc.c:81-244 | blocks of a heap lie in the buffer and do not overlap |
| `FirstFit.FreeListOrdered` | asgard/lib/m_malloc.c:81-244 | the free list of a heap is its free blocks by increasing address, and ends |
| `FirstFit.CarveWhole` | asgard/lib/m_malloc.c:112-123 | taking a block out of the list leaves a heap with that block in use |
| `FirstFit.CarveSplit` | asgard/lib/m_malloc.c:125-142 | splitting a block leaves a heap with the two parts in its place |
| `FirstFit.AllocateAdds` | asgard/lib/m_malloc.c:104-142 | allocation keeps the buffer tiled and coalesced and adds one live block, less than a header larger than asked for |
| `FirstFit.FirstGiven` | asgard/lib/m_malloc.c:94-142 | the block given starts where the first free one that is large enough did: every free block below it is too small |
| `FirstFit.ReleaseCoalesces` | asgard/lib/m_malloc.c:197-237 | freeing leaves no two free blocks side by side |
| `FirstFit.ReleaseRemoves` | asgard/lib/m_malloc.c:197-237 | freeing takes away one live block and no other |
| `FirstFit.FreeExact` | asgard/lib/m_malloc.c:187-237 | the writes of `free` give the heap with the block released when `CanFree` holds, and otherwise two blocks that point at each other |
| `FirstFit.HeapIffCanFree` | asgard/lib/m_malloc.c:187-237 | what is left is a heap, of whatever blocks, if and only if `CanFree` holds |
| `FirstFit.TwoAllocationsOneFree` | asgard/lib/m_malloc.c:81-244 | two allocations from a new heap lead to a block for which it does not |
| `Sha1.NextWordIs` | asgard/lib/structures/sha-1.c:198-203 | the word made from the circular buffer of sixteen is the word of the schedule of 80 |
| `Sha1.CircularStep` | asgard/lib/structures/sha-1.c:198-203 | overwriting the oldest word keeps the last sixteen of the schedule |
| `Sha1.FChooses` | asgard/lib/structures/sha-1.c:145-148 | in the first twenty steps a bit of the function is that of C where B has a one, and that of D elsewhere |
| `Sha1.FVotes` | asgard/lib/structures/sha-1.c:145-148 | in the third twenty any two arguments that agree on a bit decide it |
| `Sha1.FParity` | asgard/lib/structures/sha-1.c:145-148 | in the others a bit is one just when an odd number of those of the arguments are |
| `Sha1.KIsRoot` | asgard/lib/structures/sha-1.c:162-165 | the constants are the square roots of 2, 3, 5 and 10 times 2^30, rounded down |
| `Sha1.Rotates` | asgard/lib/structures/sha-1.c:128 | the rotations by 1, 5 and 30 multiply and add what leaves at the top, and rotating on to 32 undoes them |
| `Sha1.BlocksChain` | asgard/lib/structures/sha-1.c:188-213 | after a message of whole blocks, one more block goes through the eighty steps from the hash of that message |
| `Sha1.ProcessBlock` | asgard/lib/structures/sha-1.c:190-213 | a block goes through the 80 steps of section 6.1 of RFC 3174 |
| `Sha1.ComputeHash` | asgard/lib/structures/sha-1.c:170-220 | the five words are the hash of the whole blocks, as section 6.1 defines it |
| `Sha1.PaddedSizeExact` | asgard/lib/structures/sha-1.c:83-91 | the size computed is the least multiple of 64 with room for message, marker and length if and only if the message is shorter than 2^29 - 72 bytes |
| `Sha1.PaddedSizeWraps` | asgard/lib/structures/sha-1.c:83-91 | the first length for which it is not gives 0 |
| `Sha1.ReverseMakesBigEndian` | asgard/lib/structures/sha-1.c:22-34 | reversing a word read from memory by a little-endian machine gives the big-endian word of its bytes |
| `Sha1.LongReverse` | asgard/lib/structures/sha-1.c:22-34 | every word of the count is reversed, and no other |
| `Sha1.FillBytes` | asgard/lib/structures/sha-1.c:93-112 | the bytes are the message, the marker and zeros |
| `Sha1.Padding` | asgard/lib/structures/sha-1.c:37-126 | the words are the padded message of section 4 of RFC 3174 |
| `Sha1.Digest` | asgard/lib/structures/sha-1.c:37-220 | padding and hashing together are SHA-1 |
| `Sha1Vector.HashAbc` | asgard/lib/structures/sha-1.c:170-220 | the padded message "abc" hashes to the words given in section 7.3 of RFC 3174 |
| `Sha1Vector.DigestAbc` | asgard/lib/structures/sha-1.c:37-220 | so the code computes A9993E36 4706816A BA3E2571 7850C26C 9CD0D89D for it |
| `PrdList.DecodeWords` | asgard/services/atac/ATAIOPCI.C:243-252 | a controller that reads the words of the list gets its regions back, whatever follows them |
| `PrdList.BuildTiles` | asgard/services/atac/ATAIOPCI.C:218-252 | the regions cover the transfer exactly and none crosses a 64K boundary |
| `PrdList.BuildAligned` | asgard/services/atac/ATAIOPCI.C:218-252 | from an even address and count all regions are word aligned |
| `PrdList.CountsFromTimer` | asgard/services/atac/ATAIOPCI.C:158-197 | the big and small counts and the shift of a list come from the low bits of the timer and together make 64K, or are 64K and 0 |
| `PrdList.EntryCounts` | asgard/services/atac/ATAIOPCI.C:218-252 | every entry starts where those before it end, or at the one data area; one in four asks for the big count and the others for the small one, and gets it unless less is left or the segment ends |
| `PrdList.FourPerSegment` | asgard/services/atac/ATAIOPCI.C:218-252 | no 64K segment has more than four regions |
| `PrdList.TwentySuffice` | asgard/services/atac/ATAIOPCI.C:158-252 | a transfer of at most 256K takes at most 20 entries, so the table cannot overflow |
| `PrdList.ListServes` | asgard/services/atac/ATAIOPCI.C:158-252 | for any transfer of at most 256K and any timer, what the controller decodes from the words of the list covers the transfer exactly, crosses no 64K boundary, has at most four entries in a segment and 20 in all, and is word aligned if the transfer is |
| `PrdList.LargeList` | asgard/services/atac/ATAIOPCI.C:218-252 | a LARGE list has one entry for every 64K or part of it, all on the one data area, which add up to the transfer |
| `PrdList.StartPlaced` | asgard/services/atac/ATAIOPCI.C:335-362 | the table has room for all its entries in the buffer, short of a 64K boundary |
| `PrdList.ListPlaced` | asgard/services/atac/ATAIOPCI.C:158-197 | a list of at most 20 entries lies in the buffer, on a dword boundary and within one 64K segment |
| `PrdList.LargeAreasPlaced` | asgard/services/atac/ATAIOPCI.C:386-440 | list and data area are disjoint parts of the rounded range, the data area 64K aligned and the list within one segment |
| `PrdList.AreasInBuffer` | asgard/services/atac/ATAIOPCI.C:404-440 | they lie in the buffer the caller gave if and only if what the range has to spare covers what its start was moved up, and no list at its start was moved down |
| `PrdList.AlignedAreas` | asgard/services/atac/ATAIOPCI.C:404-440 | in a buffer that starts on a paragraph they always do |
| `PrdList.AreasWhenever` | asgard/services/atac/ATAIOPCI.C:404-440 | areas are found whenever an aligned 64K area above the start of the rounded range and a list beside it fit in that range |
| `PrdList.AreasOutside` | asgard/services/atac/ATAIOPCI.C:404-440 | a buffer for which the list ends 14 bytes after it, and one for which it starts a byte before it |
| `PrdList.FillList` | asgard/services/atac/ATAIOPCI.C:218-252 | the loop writes the words of the list, or fails just when it is longer than the table |
| `PrdList.NextCount` | asgard/services/atac/ATAIOPCI.C:229-241 | the count of an entry is the least of what is wanted, what is left and the way to the boundary |
| `PrdList.BusMaster.constructor` | asgard/services/atac/ATAIOPCI.C:105-120 | the driver before it is configured, with the controller not in use |
| `PrdList.BusMaster.Config` | asgard/services/atac/ATAIOPCI.C:315-373 | a misaligned register address is refused; otherwise the table is placed, and stays there while the controller is in use, and the LARGE areas are reset |
| `PrdList.BusMaster.SetMaxXfer` | asgard/services/atac/ATAIOPCI.C:386-440 | the areas and limits are those of the buffer given, or none |
| `PrdList.BusMaster.SetUpXfer` | asgard/services/atac/ATAIOPCI.C:141-259 | a transfer of up to 256K is always set up: the controller reads from memory a list for exactly the bytes from `seg * 16 + off` on, or from one byte below an odd address, which lies in the table, on a dword boundary and within one segment; so is a LARGE one within its limit, all on the data area; failure is just a list longer than the table |
| `Pio.AllRounds` | asgard/services/atac/ataioreg.c:736-783 | the packets of all rounds start where those before them end, have the full size but for the last, and hold all `n` sectors |
| `Pio.CutCovers` | asgard/services/atac/ataioreg.c:736-783 | the same of the packets of any first rounds |
| `Pio.StatusBits` | asgard/services/atac/ataioreg.c:724-812 | the tests of the status byte, bit by bit |
| `Pio.Channel.Block` | asgard/services/atac/ataioreg.c:733-783 | a block of data is moved just when it stays within the buffer; otherwise the overrun is reported and nothing is moved |
| `Pio.Channel.DataIn` | asgard/services/atac/ataioreg.c:684-838 | against any device a read takes at most ceil(n/multi) rounds, moves only first packets that fit in the buffer, and succeeds if and only if the buffer has room and the device asks for every block without fault and then stops; success means all sectors in exactly ceil(n/multi) packets; otherwise the code is that of the round it stopped in: the wait, 61 for an overrun, 31 for busy, fault or error, 32 without a request, 33 when the device does not stop |
| `Pio.Channel.DataOut` | asgard/services/atac/ataioreg.c:1058-1240 | the same of a write, which moreover needs the device ready and no early interrupt: 47 for a busy device, 46 for the interrupt, then 61, 41, 42, the wait and 43 in that order |
| `Slab.Containers.constructor` | sartoris/mk/containers.c:11-34 | the static pages are linked both ways, all slots free, none handed out |
| `Slab.Containers.ContInit` | sartoris/mk/containers.c:60-124 | the free chain of a new page visits all its slots once |
| `Slab.Containers.CsAlloc` | sartoris/mk/containers.c:131-210 | the slot given was not handed out before; every other slot stays as it was; a page is requested just when no slot is free, and failure is just being refused one |
| `Slab.Containers.CsFree` | sartoris/mk/containers.c:216-293 | exactly the slot given back stops being handed out; a page goes back if and only if it is dynamic, none of its slots is handed out and enough others are free; a slot is always left, so the next request needs no page |
| `Slab.TakeSlot` | sartoris/mk/containers.c:170-207 | free chains, page list and counts agree after a slot is taken and a full page leaves the list |
| `Slab.PushPage` | sartoris/mk/containers.c:258-266 | they agree after a page with free slots enters the list at its head |
| `Slab.GrowPage` | sartoris/mk/containers.c:222-256 | they agree after a page on the list gets a slot back |
| `Slab.DropPage` | sartoris/mk/containers.c:277-289 | they agree after a page is taken out of the middle of the list |
| `Slab.LiveDrop` | sartoris/mk/containers.c:268-289 | a page has all its slots in its chain if and only if none is handed out, and then dropping it hands out none |
| `Ports.PutNode` | sartoris/mk/message.c:594-607 | linking a message behind the last one appends its letter to that port and to no other |
| `Ports.TakeNode` | sartoris/mk/message.c:629-651 | unlinking the first message removes the oldest letter of that port and of no other |
| `Ports.CallKeeps` | sartoris/mk/message.c:511-658 | no call that opens, closes, empties, sends or receives disturbs, on any port, that the letters sent are those received followed by those waiting, or the bound on these |
| `Ports.Messaging.FifoDelivery` | sartoris/mk/message.c:511-658 | whatever calls the kernel has served, on every open port the letters sent are those received followed by those waiting, in order; `total` counts these, and is at most 64 unless the kernel itself put messages there |
| `Ports.Messaging.LiveMessages` | sartoris/mk/salloc.c:80-93 | the messages in use are those on the ports, each on one, as many as the counts of the ports add up to and as the allocator has counted |
| `Ports.Messaging.SAllocMsg` | sartoris/mk/salloc.c:23-94 | a message not in use, or NULL just at the limit or when the containers have none |
| `Ports.Messaging.SFreeMsg` | sartoris/mk/salloc.c:100-129 | exactly that message is no longer in use |
| `Ports.Messaging.CreatePort` | sartoris/mk/message.c:511-530 | a new port with an empty box; the others as they were |
| `Ports.Messaging.Enqueue` | sartoris/mk/message.c:575-614 | the letter, sender and data, goes to the end of the box and into the record of calls; without memory nothing changes |
| `Ports.Messaging.Dequeue` | sartoris/mk/message.c:620-658 | the oldest letter is taken out and delivered as sent; an empty box is an error |
| `Ports.Messaging.Empty` | sartoris/mk/message.c:553-569 | the box is empty, its messages are free again, and no message is read after it is freed |
| `Ports.Messaging.DeletePort` | sartoris/mk/message.c:537-547 | the port and its messages are gone and nothing else |
| `Ports.Messaging.SendMsg` | sartoris/mk/message.c:244-276 | a letter is sent if and only if the port is not disabled, holds fewer than 64, lets the sender in and there is memory; each of the four errors is reported in exactly the case given, two of them crossed |
| `Interrupts.StepKeeps` | sartoris/mk/interrupt.c:27-304 | every event, `run_thread` and `run_thread_int` among them, keeps the invariant that ties stack, active flags and `handling_int` together |
| `Interrupts.HandleKeeps` | sartoris/mk/interrupt.c:179-223 | an interrupt taken goes on top of the stack if it nests, and any other leaves the stack as it is |
| `Interrupts.ReturnKeeps` | sartoris/mk/interrupt.c:264-287 | a return takes exactly the top off the stack |
| `Interrupts.StackSound` | sartoris/mk/interrupt.c:179-304 | in every run from boot in which each thread handles one interrupt, the `prev` chain has `int_stack_count` distinct entries, ends in -1, and is the active nesting interrupts, each the one its thread is handling |
| `Interrupts.RoomOnStack` | sartoris/mk/interrupt.c:186-188 | an accepted interrupt never finds the stack full |
| `Interrupts.SecondBranchDead` | sartoris/mk/interrupt.c:224-244 | the second branch of `handle_int` is never taken in such runs |
| `Interrupts.InterruptsDelivered` | sartoris/mk/interrupt.c:179-223 | in every state reached from boot an interrupt whose handler exists, is not current and handles nothing runs it and is active, nesting or not; the current thread leaves an interrupt that does not nest; in every other case nothing changes |
| `Interrupts.ReturnResumes` | sartoris/mk/interrupt.c:256-304 | in every such state a return from the top of the stack gives the processor to the thread of the interrupt below, or to the one that was there before the first; from any other thread nothing changes |
| `Interrupts.SwitchRuns` | sartoris/mk/thread.c:202-312 | in every such state `run_thread` runs an allowed thread that handles nothing, but not from inside a nesting interrupt; the stack does not change |
| `Interrupts.HandlerServes` | sartoris/mk/interrupt.c:27-246 | a new thread made the handler of a free interrupt is run by it, and cannot be removed then; before that it can, and the interrupt is lost |
| `Interrupts.BracketedRestores` | sartoris/mk/interrupt.c:179-304 | a bracketed run of accepted nesting interrupts restores current thread, stack and `handling_int` if and only if it starts settled |
| `Interrupts.DetourLost` | sartoris/mk/thread.c:202-312 | a run from boot to a thread in no interrupt that a nested interrupt does not give the processor back to |
| `Interrupts.Kernel.constructor` | sartoris/mk/main.c:85-97 | the state every run starts in |
| `Interrupts.Kernel.HandleInt` | sartoris/mk/interrupt.c:179-246 | the globals change as the state machine says: the handler runs if it is another thread that handles nothing, nesting or not, and otherwise nothing changes |
| `Interrupts.Kernel.RetFromInt` | sartoris/mk/interrupt.c:256-304 | the globals change as the state machine says, and when it reports success |
| `Ofs.SectorsSuffice` | asgard/tools/mkofs.c:105-110 | the sectors reserved hold the bits, and are the fewest that do if and only if there are fewer than 512 |
| `Ofs.SectorsStep` | asgard/tools/mkofs.c:105-110 | every 512 bits more take eight sectors more, and fewer than 512 take one |
| `Ofs.SectorsWasted` | asgard/tools/mkofs.c:105-110 | 512 bits get eight sectors where one would do |
| `Ofs.Size` | asgard/tools/mkofs.c:138-166 | both loops end and no `int` in them overflows; what remains never falls below the bitmaps, four more nodes with as many blocks would not fit, and more blocks fit only if it is one that leaves nothing over; a size read as negative gets no layout |
| `Ofs.SizedExact` | asgard/tools/mkofs.c:112-166 | the bytes sized are those of the storage if and only if the reserved sectors fit in it and leave less than 2^31; otherwise there is no node and no block |
| `Ofs.SizeThreeGigabytes` | asgard/tools/mkofs.c:112-166 | three gigabytes get no node and no block, although four of each would fit |
| `Ofs.MoreBlocks` | asgard/tools/mkofs.c:158-166 | one more block fits if and only if it fills the storage to the last byte, and two never do |
| `Ofs.MostNodes` | asgard/tools/mkofs.c:143-156 | there is only one number of nodes for which that many fit, with as many blocks, and four more do not |
| `Ofs.SizeTwelveSectors` | asgard/tools/mkofs.c:138-166 | twelve sectors get no block, although one would fit |
| `Ofs.SizeFloppy` | asgard/tools/mkofs.c:44-166 | the image made when no size is given has 348 nodes and 348 blocks |
| `Ofs.LayoutFits` | asgard/tools/mkofs.c:198-207 | bitmaps, node table and blocks follow one another without gap or overlap, each large enough, and end within the storage |
| `Ofs.HeaderPlaced` | asgard/tools/mkofs.c:129-213 | the group header is written where it is looked for if and only if the metadata size is a multiple of 512 |
| `Ofs.HeaderMisplaced` | asgard/tools/mkofs.c:129-213 | with 100 bytes of metadata it is written at 1124 and looked for at 1536 |
| `Ofs.ClearIs` | asgard/tools/mkofs.c:740-768 | what the search is compared with: exactly the clear positions, ascending |
| `Ofs.MaskOrder` | asgard/tools/mkofs.c:745-768 | positions go from the highest bit of a byte to the lowest |
| `Ofs.Search` | asgard/tools/mkofs.c:745-768 | the positions found are the lowest clear ones, and as many as asked for if there are |
| `Ofs.GetFree` | asgard/tools/mkofs.c:740-785 | the lowest clear positions, scaled and shifted, exactly those set; without enough of them nothing is set |
| `Ofs.GetFreeBlocks` | asgard/tools/mkofs.c:735-738 | the sectors given belong to different blocks, and all to the group if and only if enough of its own are clear |
| `Ofs.BlocksApart` | asgard/tools/mkofs.c:735-738 | different blocks of the group have disjoint runs of sectors after the node table and before the end |
| `Ofs.BlocksExist` | asgard/tools/mkofs.c:598-738 | the blocks given out exist if and only if enough positions of existing blocks are clear |
| `Ofs.WholeBytes` | asgard/tools/mkofs.c:598-607 | with a number of blocks divisible by eight they always are; otherwise a full group can still give one out |
| `Ofs.FloppyOverrun` | asgard/tools/mkofs.c:598-738 | a full image of 348 blocks still gives out block 348, whose sectors start where the blocks end |
| `SymbolLookup.ReducedIs` | asgard/services/ld/ld.c:260-266 | a round of the hash keeps 28 bits and folds the other four into bits 4 to 7 |
| `SymbolLookup.ElfHash` | asgard/services/ld/ld.c:256-269 | the loop computes the hash of the gABI and stays below 2^28 |
| `SymbolLookup.HashRealloc` | asgard/services/ld/ld.c:256-269 | the hash of `realloc`, whose last byte folds bits back, is 0x08B83323 |
| `SymbolLookup.FindSymbolObj` | asgard/services/ld/ld.c:852-891 | the hash chain finds a symbol if and only if a search of the whole table does, and the same one when names are unique; a defined global or weak function, object or untyped symbol of that name is never missed, and what is found is one, or a function with an address when that will do |
| `SymbolLookup.EligibleIs` | asgard/services/ld/ld.c:866-882 | which symbols a lookup can find, the undefined ones among them |
| `SymbolLookup.ScopeOrder` | asgard/services/ld/ld.c:898-975 | a symbolic object is searched first, then the global scope, then the local one |
| `SymbolLookup.ScopeExcludes` | asgard/services/ld/ld.c:926-948 | an excluded object is passed over in the global scope, and the others keep their order |
| `SymbolLookup.ResolveFirst` | asgard/services/ld/ld.c:926-994 | a global symbol anywhere in scope comes before any weak one, the first of a kind before the others, and nothing is found only if there is nothing to find |
| `SymbolLookup.Linker.Look` | asgard/services/ld/ld.c:934-948 | one object's global symbol is final, and its weak one kept only if it is the first |
| `SymbolLookup.Linker.SearchList` | asgard/services/ld/ld.c:926-975 | a scope list is searched in order up to the first global symbol, passing over the excluded object |
| `SymbolLookup.Linker.FindSymbol` | asgard/services/ld/ld.c:898-994 | the result is the first global symbol in scope order, own object first for symbolic objects, or else the first weak one if wanted |
| `SymbolLookup.Linker.BuildGlobalScope` | asgard/services/ld/ld.c:623-640 | the list has the objects loaded in their order, the linker among them, and ends |

## Left out

- Sha1.Padding: stated for messages shorter than 2^29 - 72 bytes, because from there on the buffer of the original is too small for its own writes; `Sha1.PaddedSizeExact` shows the bound to be exact.
- Sha1.Digest: as `Sha1.Padding`.
- FirstFit.Heap.Ecalloc: does not model the zeroing of the block, the count of free memory or the lock around it.
- FirstFit.Heap.constructor: a buffer with the address 2^31 inside it is left out, because `free` compares addresses as signed numbers, which puts its upper part first.
- FirstFit.Heap.Free: the pointer is one that `malloc` gave, or outside the buffer.
- TicketMutex.RunRefines: a thread holds the mutex up to the leave that releases it, which need not be the one that balances its waits; at most MAXTURN threads hold or wait, which `TicketMutex.LimitExact` shows to be the exact limit.
- PrdList.BusMaster.SetUpXfer: the programming of the bus master registers after the list is set up is not modelled; a LARGE transfer requires the areas to have been placed.
- Pio.Channel.DataIn: without DRQ call-back and for at least one sector; selection of the drive, register set-up, delays and tracing are not modelled.
- Pio.Channel.DataOut: as `Pio.Channel.DataIn`.
- Slab.Containers.CsAlloc: one type of structure at a time; that fetching a page can let other threads run is not modelled, and the page given is not in use.
- Ports.Messaging.SendMsg: the permission bitmap, validation of pointers and events are not modelled; nor are tasks and their port tables.
- Ports.Messaging.LiveMessages: `ammount` starts at 0 because it is static, not because of `init_salloc`, which compares it instead of setting it.
- Interrupts.StackSound: each thread is the handler of one interrupt at most, since with more the second branch of `handle_int` reads a variable that is not set; threads are not destroyed.
- Interrupts.StepKeeps: creating threads and handlers, removing handlers, `run_thread` and `run_thread_int` are steps on values, not methods; of `run_thread_int` only the change of the current thread is modelled; page fault records, `push_int`, `pop_int` and `resume_int` are not modelled.
- Ofs.Size: when the reserved sectors leave from 2^31 to 2^31 + 17919 bytes the first difference of the loop overflows an `int`, which C leaves undefined; these sizes are left out, as is writing the image.
- Ofs.SizedExact: metadata of 2 GB and more is left out.
- PrdList.ListPlaced: like `PrdList.StartPlaced`, `PrdList.LargeAreasPlaced`, `PrdList.AreasInBuffer` and `PrdList.AlignedAreas`, for buffers in the first megabyte, which is all that a real-mode segment number reaches.
- SymbolLookup.Linker.FindSymbol: hash tables are well formed, names unique within an object and scope lists end; loading objects, relocation and binding are not modelled.
- AvlHeap.AvlTree.Insert: whether `malloc` succeeds is a parameter; `avl_remove_all` and freeing nodes are not modelled.
- The rest of the kernel (tasks, shared memory, paging, events) and of the services (console, file system service, process manager, shell) is input and output or depends on code outside these files.
