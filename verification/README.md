# Models of the allocator, kernel and search code

Dafny models, with proofs, of the algorithms in this repository that keep the most state. `dafny verify dfyconfig.toml`
checks everything.

- **dlmalloc** (`Heap*`, `SmallBins`, `TreeBins`, `TreeShape`, `TreeOrder`, `SizeClass`, `PortableIndex`, `BinMap`,
  `Ring`, `Arith`): one segment with 32-bit words. Memory words are maps from addresses; boundary tags, small bins,
  the bitwise tries of the large bins, dv and top are rewritten as the macros do. The debug checkers of the code are the
  invariant, in a stronger form. Everything is put together in `HeapRuns`, for whole sequences of requests.
- **The futex mutex** (`NormalMutex`, `RecursiveMutex`): state machines over one word, any number of threads, one atomic
  operation or futex call a step. The words are bit vectors with the field layout of the code.
- **vmalloc** (`Vmalloc`, `VmallocPercpu`): the sorted list of areas, the search tree over it, the cached place and hole
  size; the percpu allocator with its wrapping base address. A rebalancing is any tree with the same walk.
- **The kernel log** (`LogRecord`, `LogRing`, `LogConsole`, `LogText`, `LogSyslog`): records as bytes in a ring, two
  kinds of reader, the text that a record is rendered to, and reads of any size that stop in the middle of a record.
- **Aho-Corasick** (`Acsm`, `AcsmTrie`, `AcsmQueue`), **KMP** (`Kmp`) and **CRC-8** (`Crc8`).
- **The dynamic linker** (`LinkGraph`, `Linker`): reference counts, child lists, the loading queue, and what is left
  after a refusal. The file system is a map from names to what loading a file would find.
- **Dirty page control** (`Writeback`): thresholds, the cubic control line and the shares of the devices, in 32-bit
  words where the code uses them.

Addresses of chunks, areas and libraries are values: a class holds the words of its structure in fields of type `map`
and `seq`, and its methods rewrite them step by step.

## Model

| member | source | states |
|---|---|---|
| HeapRuns.Run | debugfs/android50/bionic/libc/upstream-dlmalloc/malloc.c:4594-4832 | Over any sequence of malloc, free and in-place realloc on one segment, every request is answered as `Answers` says (refused, with nothing changed, exactly when nothing can serve it; otherwise the client gets a chunk that is the right choice and every other block keeps its place and size), and after every request the segment is well formed and the client's blocks are exactly the allocated chunks, distinct and large enough |
| HeapRuns.Step | debugfs/android50/bionic/libc/upstream-dlmalloc/malloc.c:4594-4832 | The same for one request |
| HeapRuns.BlocksDisjoint | debugfs/android50/bionic/libc/upstream-dlmalloc/malloc.c:3293-3301 | Two blocks of the client never share an address and all lie between the base of the segment and top |
| HeapShape.Tiling | debugfs/android50/bionic/libc/upstream-dlmalloc/malloc.c:3463-3493 | Every address below top lies in exactly one chunk |
| HeapShape.NoAdjacentFree | debugfs/android50/bionic/libc/upstream-dlmalloc/malloc.c:3304-3324 | The chunk after a free chunk is in use and is not top, and the chunk before it is allocated: coalescing is complete |
| HeapShape.FreeIsBinned | debugfs/android50/bionic/libc/upstream-dlmalloc/malloc.c:3463-3493 | The free chunks are dv and the binned ones under their own sizes, no others, and dv is in no bin |
| HeapShape.RewriteOK | debugfs/android50/bionic/libc/upstream-dlmalloc/malloc.c:3463-3493 | Replacing a stretch of chunks by well-formed pieces keeps the whole segment well formed: boundary tags, pinuse bits, previous-size words and bins |
| Heap.Heap.Malloc | debugfs/android50/bionic/libc/upstream-dlmalloc/malloc.c:4594-4725 | Returns a chunk that was not allocated, of the padded size with less than a minimal chunk to spare, chosen as it should be: the smallest binned chunk that fits, dv only when no binned chunk fits a large request better, top only when nothing else fits; 0 exactly when nothing in the segment fits, and then nothing has changed |
| Heap.Heap.MallocSmall | debugfs/android50/bionic/libc/upstream-dlmalloc/malloc.c:4625-4676 | A small request takes a chunk out of a bin only if it is the smallest binned one that fits; 0 only if the bins hold nothing to prefer to dv |
| Heap.Heap.TmallocLarge | debugfs/android50/bionic/libc/upstream-dlmalloc/malloc.c:4484-4552 | Hands out the smallest binned chunk that fits, strictly better than dv; 0 only when no binned chunk fits better than dv, with nothing changed |
| Heap.Heap.TmallocSmall | debugfs/android50/bionic/libc/upstream-dlmalloc/malloc.c:4555-4590 | Hands out the smallest tree chunk for a small request that no small bin and not dv can serve |
| Heap.Heap.TakeSmall | debugfs/android50/bionic/libc/upstream-dlmalloc/malloc.c:4632-4670 | The first chunk of a marked small bin with nothing better below it is a right choice, and is handed out, whole or split |
| Heap.Heap.UseBinned | debugfs/android50/bionic/libc/upstream-dlmalloc/malloc.c:4646-4667 | Unlinking a binned chunk, splitting off what is not needed to dv or to a bin, adds just that chunk to the allocated ones and keeps the segment well formed |
| Heap.Heap.UseDv | debugfs/android50/bionic/libc/upstream-dlmalloc/malloc.c:4688-4706 | The front of dv, or all of it when the rest would be too small, joins the allocated chunks |
| Heap.Heap.UseTop | debugfs/android50/bionic/libc/upstream-dlmalloc/malloc.c:4708-4718 | The front of top joins the allocated chunks |
| Heap.Heap.ReplaceDv | debugfs/android50/bionic/libc/upstream-dlmalloc/malloc.c:3676-3686 | The old dv, if any, becomes an ordinary binned chunk |
| Heap.Heap.Release | debugfs/android50/bionic/libc/upstream-dlmalloc/malloc.c:4750-4828 | The allocated chunks lose exactly the freed one and the segment is well formed again: merging with the chunk before and after, with dv and with top |
| Heap.Heap.TryRealloc | debugfs/android50/bionic/libc/upstream-dlmalloc/malloc.c:4861-4938 | Succeeds exactly when the chunk alone, or with top or the free chunk after it, has room; then the chunk keeps its address with less than a minimal chunk to spare and all others are untouched; otherwise nothing changes |
| HeapOps.UseSplitOK | debugfs/android50/bionic/libc/upstream-dlmalloc/malloc.c:4642-4667 | Splitting a free chunk keeps the segment well formed and allocates exactly the front |
| HeapOps.FreeStretchOK | debugfs/android50/bionic/libc/upstream-dlmalloc/malloc.c:4413-4479 | Making one free chunk out of a chunk and its free neighbours keeps the segment well formed and frees exactly that chunk |
| HeapOps.ResizeOK | debugfs/android50/bionic/libc/upstream-dlmalloc/malloc.c:4861-4938 | Recutting a chunk in use and the free chunk after it keeps the segment well formed |
| TreeBins.TreeBins.Insert | debugfs/android50/bionic/libc/upstream-dlmalloc/malloc.c:3690-3739 | The binned chunks gain exactly the new one with its size, and the tries, their rings of equal sizes and the tree map stay well formed |
| TreeBins.TreeBins.Unlink | debugfs/android50/bionic/libc/upstream-dlmalloc/malloc.c:3758-3827 | The binned chunks lose exactly the given one, whether it is chained, a leaf, or an inner node replaced by its rightmost leaf; the tries stay well formed |
| TreeBins.TreeBins.FindBestFit | debugfs/android50/bionic/libc/upstream-dlmalloc/malloc.c:4490-4531 | The smallest held chunk of at least the wanted size over all bins; 0 exactly when there is none |
| TreeBins.TreeBins.FindSmallest | debugfs/android50/bionic/libc/upstream-dlmalloc/malloc.c:4555-4572 | The smallest of all held chunks, found in the lowest marked bin |
| TreeBins.TreeBins.SearchPath | debugfs/android50/bionic/libc/upstream-dlmalloc/malloc.c:4490-4512 | After the walk down the path of the wanted size, whatever large enough chunk is smaller than the choice lies below the remembered subtree; with neither a choice nor a subtree, no chunk of this bin or a lower one fits |
| TreeBins.TreeBins.SearchLeftmost | debugfs/android50/bionic/libc/upstream-dlmalloc/malloc.c:4523-4530 | The leftmost walk meets the smallest large enough chunk of its subtree |
| TreeBins.TreeBins.Descend | debugfs/android50/bionic/libc/upstream-dlmalloc/malloc.c:3704-3737 | The insertion walk ends at the member of the same size, if there is one, or at the free slot where the trie wants the new size |
| TreeBins.TreeBins.RightmostLeaf | debugfs/android50/bionic/libc/upstream-dlmalloc/malloc.c:3773-3787 | A leaf below the given node that fits its position, and the slot that leads to it; none only if the node is a leaf |
| TreeShape.AddNodeOK | debugfs/android50/bionic/libc/upstream-dlmalloc/malloc.c:3341-3389 | Hanging a new node at a free position of its size keeps the trie invariant |
| TreeShape.DetachLeafOK | debugfs/android50/bionic/libc/upstream-dlmalloc/malloc.c:3341-3389 | Taking out a leaf keeps the trie invariant |
| TreeShape.ReplaceNodeOK | debugfs/android50/bionic/libc/upstream-dlmalloc/malloc.c:3789-3826 | Putting a node of a fitting size in the place of another keeps the trie invariant |
| TreeOrder.LeftmostStep | debugfs/android50/bionic/libc/upstream-dlmalloc/malloc.c:4523-4530 | One step of the leftmost walk: what might be smaller was settled by the present node or lies below the next |
| TreeOrder.NextBinCovers | debugfs/android50/bionic/libc/upstream-dlmalloc/malloc.c:4513-4521 | With nothing fitting in the bin of the wanted size, the root of the next marked bin covers all that fits |
| SizeClass.BinRange | debugfs/android50/bionic/libc/upstream-dlmalloc/malloc.c:2900-2911 | Each tree bin holds exactly the sizes from its minimum up to the minimum of the next |
| SizeClass.BinsOrdered | debugfs/android50/bionic/libc/upstream-dlmalloc/malloc.c:2837-2896 | Larger sizes never go to a lower bin |
| SizeClass.RootShared | debugfs/android50/bionic/libc/upstream-dlmalloc/malloc.c:2900-2911 | All sizes of a bin agree on the bits above those its trie inspects |
| SizeClass.SizeBitsStep | debugfs/android50/bionic/libc/upstream-dlmalloc/malloc.c:3706-3709 | The sign bit of the walk's shifted size is the next bit of the size, and doubling moves to the bit after |
| PortableIndex.PortableIndexExact | debugfs/android50/bionic/libc/upstream-dlmalloc/malloc.c:2880-2896 | The shift cascade gives every size the same bin as the forms that count leading zeros |
| PortableIndex.PortableLog2Exact | debugfs/android50/bionic/libc/upstream-dlmalloc/malloc.c:2880-2896 | The cascade computes the floor of the binary logarithm on every value it is used for |
| BinMap.MarkExact | debugfs/android50/bionic/libc/upstream-dlmalloc/malloc.c:2914-2926 | Marking a bin changes the mark of that bin and no other |
| BinMap.ClearExact | debugfs/android50/bionic/libc/upstream-dlmalloc/malloc.c:2914-2926 | Clearing a bin changes the mark of that bin and no other |
| BinMap.LeftBitsExact | debugfs/android50/bionic/libc/upstream-dlmalloc/malloc.c:2932 | The mask keeps exactly the marks above the index |
| BinMap.Bit2IdxInverse | debugfs/android50/bionic/libc/upstream-dlmalloc/malloc.c:2967-2978 | Turning an isolated bit into its index inverts the shift that makes the bit |
| BinMap.NextMarked | debugfs/android50/bionic/libc/upstream-dlmalloc/malloc.c:4513-4521 | The nearest marked bin above an index, 32 when there is none |
| BinMap.LeastMarked | debugfs/android50/bionic/libc/upstream-dlmalloc/malloc.c:4559-4561 | The lowest marked bin of a map that is not empty |
| BinMap.LowBits | debugfs/android50/bionic/libc/upstream-dlmalloc/malloc.c:4632 | The two low bits of the shifted map are the marks of two neighbouring bins |
| SmallBins.SmallBins.Insert | debugfs/android50/bionic/libc/upstream-dlmalloc/malloc.c:3612-3628 | The small bins gain exactly the new chunk; every ring and the map stay well formed |
| SmallBins.SmallBins.Unlink | debugfs/android50/bionic/libc/upstream-dlmalloc/malloc.c:3631-3672 | The small bins lose exactly the given chunk, and the mark goes with the last of a bin |
| SmallBins.SmallBins.First | debugfs/android50/bionic/libc/upstream-dlmalloc/malloc.c:4635-4638 | Behind the header of a marked bin stands a chunk of that bin's size |
| Ring.InsertBehindHead | debugfs/android50/bionic/libc/upstream-dlmalloc/malloc.c:3612-3628 | Linking a node behind the head of a circular list yields the list with the node second |
| Ring.Unlink | debugfs/android50/bionic/libc/upstream-dlmalloc/malloc.c:3631-3654 | Stitching the neighbours of a node together yields the list without it, in the same order |
| NormalMutex.RunsSafe | debugfs/android50/bionic/libc/bionic/pthread_mutex.cpp:314-414 | In every state of every interleaving of lock, timedlock, trylock and unlock there is at most one owner, the word is 0 exactly when there is none, and no wakeup is lost |
| NormalMutex.NextKeepsInv | debugfs/android50/bionic/libc/bionic/pthread_mutex.cpp:314-414 | Every step of every thread keeps these properties |
| NormalMutex.RefinesLock | debugfs/android50/bionic/libc/bionic/pthread_mutex.cpp:314-414 | Every step of the protocol is a step of an ideal lock: nobody, or a free lock taken, or a held lock released |
| NormalMutex.FreeLockIsTaken | debugfs/android50/bionic/libc/bionic/pthread_mutex.cpp:314-345 | When the lock is free and a thread sleeps, at most two steps that are enabled end with some thread holding the lock |
| NormalMutex.ContendedUnlockStores | debugfs/android50/bionic/libc/bionic/pthread_mutex.cpp:374-389 | An unlock that finds contention still holds the lock, whatever others do, until its store of 0, which is enabled |
| NormalMutex.ContendedUnlockWakes | debugfs/android50/bionic/libc/bionic/pthread_mutex.cpp:389-413 | After the store it reaches the wake call whatever others do; the call can take any one sleeper out of the queue, which is then about to swap, and does nothing exactly when nobody sleeps |
| RecursiveMutex.RunsSafe | debugfs/android50/bionic/libc/bionic/pthread_mutex.cpp:461-639 | In every state of every interleaving the word decodes to the one holder and its depth with its type and shared bits unchanged, and no sleeper is stranded |
| RecursiveMutex.NextKeepsInv | debugfs/android50/bionic/libc/bionic/pthread_mutex.cpp:461-639 | Every step of every thread keeps these properties |
| RecursiveMutex.RefinesReentrantLock | debugfs/android50/bionic/libc/bionic/pthread_mutex.cpp:428-599 | Every step changes at most the depth of its own thread, by one level, and only while no other thread holds the lock |
| RecursiveMutex.HolderIsUnique | debugfs/android50/bionic/libc/bionic/pthread_mutex.cpp:461-599 | One thread at most holds the lock, at most 2048 levels deep, and once only on an errorcheck mutex |
| RecursiveMutex.CallsTell | debugfs/android50/bionic/libc/bionic/pthread_mutex.cpp:428-565 | A re-entering call gets EDEADLK exactly on an errorcheck mutex and EAGAIN exactly at depth 2048; unlock gets EPERM exactly when the caller does not hold the lock |
| RecursiveMutex.BusyMeansHeld | debugfs/android50/bionic/libc/bionic/pthread_mutex.cpp:601-639 | trylock reports EBUSY only while some thread holds the lock |
| RecursiveMutex.FreeLockIsTaken | debugfs/android50/bionic/libc/bionic/pthread_mutex.cpp:480-540 | When the lock is free and a thread sleeps, at most five steps, enabled one after the other, end with some thread holding the lock |
| RecursiveMutex.LooperTakes | debugfs/android50/bionic/libc/bionic/pthread_mutex.cpp:501-540 | A thread in the lock loop takes a free lock by its own steps |
| RecursiveMutex.StepKeepsDecoding | debugfs/android50/bionic/libc/bionic/pthread_mutex.cpp:428-599 | Every step keeps the word the exact account of who holds the lock and how deep |
| RecursiveMutex.StepKeepsWakeups | debugfs/android50/bionic/libc/bionic/pthread_mutex.cpp:480-540 | Every step keeps no sleeper stranded |
| MutexWord.IncrementStaysInField | debugfs/android50/bionic/libc/bionic/pthread_mutex.cpp:434-458 | Adding a level never carries out of the 11 bits of the counter |
| MutexWord.DecrementStaysInField | debugfs/android50/bionic/libc/bionic/pthread_mutex.cpp:567-581 | Taking off a level never borrows from the neighbouring fields |
| MutexWord.FlipChangesStateOnly | debugfs/android50/bionic/libc/bionic/pthread_mutex.cpp:524-533 | Marking the lock contended changes the two state bits only |
| Vmalloc.VmapAllocator.TryAlloc | debugfs/android50/kernel/mm/vmalloc.c:388-460 | The lowest aligned free place at or above the place where the scan starts, entered into the list; nothing exactly when there is none there. On success the new area becomes the cached one and the cached hole size bounds every hole below it that was seen. On failure nothing larger than the size fits anywhere; and something of the size itself does exactly if the cache was used, its hole size was the size, and there is a fit below the start of the scan |
| Vmalloc.VmapAllocator.Alloc | debugfs/android50/kernel/mm/vmalloc.c:351-477 | The result is aligned, in the range and disjoint from every live area; failure means, after a purge, that no larger aligned hole exists |
| Vmalloc.VmapAllocator.FreeArea | debugfs/android50/kernel/mm/vmalloc.c:479-512 | Exactly the area goes, and the cache and the hint of the percpu allocator become what the code makes them, still truthful |
| Vmalloc.VmapAllocator.FreeLazily | debugfs/android50/kernel/mm/vmalloc.c:681-687 | The area is marked and stays mapped |
| Vmalloc.VmapAllocator.Purge | debugfs/android50/kernel/mm/vmalloc.c:602-653 | Exactly the lazily freed areas go |
| Vmalloc.VmapAllocator.WalkAreas | debugfs/android50/kernel/mm/vmalloc.c:434-446 | The walk over the areas finds the lowest fit at or above its start, or proves there is none, and raises the hole size to what it passed |
| VmapAreas.FindFirst | debugfs/android50/kernel/mm/vmalloc.c:414-427 | The descent of the tree finds the first area that ends at or above the address |
| VmapAreas.FindPlace | debugfs/android50/kernel/mm/vmalloc.c:313-343 | The place in the list of a new area that overlaps none, found by the descent of the tree |
| Vmalloc.NothingLargerBelow | debugfs/android50/kernel/mm/vmalloc.c:388-395 | With a truthful cache, no hole below the cached place is larger than the cached hole size |
| Vmalloc.FailureMeans | debugfs/android50/kernel/mm/vmalloc.c:388-476 | What a failed scan says about all addresses: nothing larger fits, and the size itself fits exactly if the hole size is the size and a fit lies below the start |
| Vmalloc.InsertKeepsCache | debugfs/android50/kernel/mm/vmalloc.c:388-402 | Mapping another area keeps the cache truthful |
| Vmalloc.FreeKeepsCache | debugfs/android50/kernel/mm/vmalloc.c:483-497 | Freeing an area keeps the cache truthful |
| Vmalloc.ExactFitIsMissed | debugfs/android50/kernel/mm/vmalloc.c:388-395 | A new allocator, driven through the calls listed under Findings, answers a one-page request with nothing beside a free page |
| PercpuAreas.GetAreas | debugfs/android50/kernel/mm/vmalloc.c:2401-2530 | All areas of the layout are mapped at the highest base at or below the one the hint leads to where every one is aligned, in range and on free addresses; nothing exactly when no such base exists or the range is too small; the hint moves to the end of what was placed |
| PercpuAreas.PlaceOnce | debugfs/android50/kernel/mm/vmalloc.c:2447-2530 | The same for one scan under the lock |
| PercpuAreas.FindBase | debugfs/android50/kernel/mm/vmalloc.c:2460-2515 | The highest feasible base at or below the start of the scan, or none at all |
| PercpuAreas.ScanDown | debugfs/android50/kernel/mm/vmalloc.c:2470-2515 | The rotating scan terminates, its consistency checks never fire although the base is a wrapping word, and it skips no feasible base |
| PercpuAreas.FindNextPrev | debugfs/android50/kernel/mm/vmalloc.c:2311-2339 | The two areas around an end address; nothing exactly when no area is mapped |
| PercpuAreas.DetermineEnd | debugfs/android50/kernel/mm/vmalloc.c:2357-2375 | The highest aligned end below the next area, with the two areas moved down to enclose it |
| PercpuAreas.PushedBelow | debugfs/android50/kernel/mm/vmalloc.c:2492-2509 | An area in the way pushes every feasible base below itself |
| PercpuAreas.LastArea | debugfs/android50/kernel/mm/vmalloc.c:2415-2438 | The area with the highest end |
| LogRing.Log.Store | debugfs/android50/kernel/kernel/printk.c:394-455 | The live records lose as many of the oldest as room needs, and no more, and gain the new one; all live records are intact in the buffer, and every cursor of a record still live names it as before |
| LogRing.Log.Walk | debugfs/android50/kernel/kernel/printk.c:314-338 | Following log_next from the first index reads exactly the live records, intact and in order, and ends at the next index |
| LogRing.Log.MakeRoom | debugfs/android50/kernel/kernel/printk.c:407-424 | Drops the oldest records one by one, each only while the free space in one piece is too small |
| LogRing.Log.NextIndex | debugfs/android50/kernel/kernel/printk.c:314-338 | The index of the record after, across a wrap marker too |
| LogRing.Log.FromIndex | debugfs/android50/kernel/kernel/printk.c:291-311 | Where the bytes of a record are: at its index, or at the start of the buffer behind a marker |
| LogRing.Log.Read | debugfs/android50/kernel/kernel/printk.c:291-311 | The record at an index is the one stored |
| LogRing.Log.SetFlags | debugfs/android50/kernel/kernel/printk.c:2346-2379 | Rewriting the flags of one record in place changes that record's flags and nothing else |
| LogRing.ShapeFromIndices | debugfs/android50/kernel/kernel/printk.c:410-413 | The comparison of the two indices tells a wrapped ring from a plain one |
| LogRing.EmptiedWrap | debugfs/android50/kernel/kernel/printk.c:426-434 | In an emptied ring that must wrap, the marker at the first index stays readable exactly when the bytes of the new record that fall on its length field are zero; within the size the code assumes it always does |
| LogRecord.ReadBack | debugfs/android50/kernel/kernel/printk.c:203-211 | Reading the fields of an encoded record gives the record |
| LogRecord.LittleEndianRoundTrip | debugfs/android50/kernel/kernel/printk.c:203-211 | A number of k bytes reads back as it was written |
| LogConsole.Console.Next | debugfs/android50/kernel/kernel/printk.c:2335-2379 | Passes over exactly the muted records, clearing their mark, and takes the first other one, with the flags of the record before it |
| LogText.PrintText | debugfs/android50/kernel/kernel/printk.c:1045-1102 | The lines of the text, each behind its prefix, up to the first that might not fit |
| LogText.TextLength | debugfs/android50/kernel/kernel/printk.c:1045-1102 | Without a buffer, the length of the whole rendering |
| LogText.CutOnlyWhenFull | debugfs/android50/kernel/kernel/printk.c:1045-1102 | Nothing is cut when the buffer has room for the whole rendering and one more prefix |
| LogText.PrefixLengthExact | debugfs/android50/kernel/kernel/printk.c:1006-1043 | The prefix length computed without a buffer is the length of the prefix written |
| LogText.MarkInvisible | debugfs/android50/kernel/kernel/printk.c:1045-1102 | The already-shown mark changes no rendering |
| LogSyslog.Syslog.Print | debugfs/android50/kernel/kernel/printk.c:1213-1284 | Whatever the size of the read, the bytes handed out go on where the last read stopped, over partial records too, are never more than asked for, and are some if any are due; after lost records a new stream starts |
| LogSyslog.Syslog.SentIsPrefix | debugfs/android50/kernel/kernel/printk.c:1213-1284 | All bytes handed out so far are a prefix of the renderings of all records, in order: none lost, repeated or moved |
| LogSyslog.StoreBetweenReads | debugfs/android50/kernel/kernel/printk.c:394-455 | A store between two reads leaves the reader where it was, or it knows that it lost records |
| LogSyslog.ShowBetweenReads | debugfs/android50/kernel/kernel/printk.c:2335-2379 | A round of the console between two reads, which clears marks in the buffer, leaves a reader in the middle of a record where it was |
| Acsm.Matcher.Compile | algo/aho_corasick_state_machine/acsm.c:305-417 | The table is the automaton of the patterns: every transition leads to the longest suffix that is a state, the failure state is the longest proper one, the match lists are those of all patterns that end there; each state is swept once, and the states stay below the bound computed while adding |
| Acsm.Matcher.Search | algo/aho_corasick_state_machine/acsm.c:420-445 | 1 exactly when some pattern occurs in the text, both folded to one case when the context says so |
| Acsm.Matcher.Follow | algo/aho_corasick_state_machine/acsm.c:429-439 | One character of the search: the state is that of the longest suffix read, and a pattern ends exactly when its match list is not empty; the failure loop never runs on a compiled table |
| Acsm.Matcher.AddPattern | algo/aho_corasick_state_machine/acsm.c:269-302 | The folded pattern joins the front of the list and the bound on the states grows with it |
| Acsm.Matcher.BuildTrie | algo/aho_corasick_state_machine/acsm.c:329-361 | The states are exactly the prefixes of the patterns, one each, and fit the table |
| Acsm.Matcher.FillRoot | algo/aho_corasick_state_machine/acsm.c:363-367 | The root leads back to itself where the trie has no transition |
| Acsm.Matcher.Sweep | algo/aho_corasick_state_machine/acsm.c:371-411 | Breadth first over the queue, every state is completed once from shorter ones |
| Acsm.Matcher.UnionMatches | algo/aho_corasick_state_machine/acsm.c:192-205 | The list becomes the union of both, and nothing else in the table changes |
| AcsmTrie.LongestStep | algo/aho_corasick_state_machine/acsm.c:371-411 | To extend a text by a character only its longest suffix that is a state matters |
| AcsmTrie.LongestSuffix | algo/aho_corasick_state_machine/acsm.c:371-411 | A state's string is a suffix of a text exactly if it is one of the chosen state's string |
| AcsmTrie.FullByFailure | algo/aho_corasick_state_machine/acsm.c:406-409 | Where the trie has no transition, the automaton goes where the failure state goes |
| AcsmTrie.ChildFailure | algo/aho_corasick_state_machine/acsm.c:395-401 | The failure state of a child is where the parent's failure state goes |
| AcsmTrie.MatchesByFailure | algo/aho_corasick_state_machine/acsm.c:401-404 | A pattern ends at a state exactly if it is the state's string or ends at the failure state |
| AcsmQueue.StateQueue.AddState | algo/aho_corasick_state_machine/acsm.c:118-131 | The state joins the end of the queue, on a spare node if there is one |
| AcsmQueue.StateQueue.NextState | algo/aho_corasick_state_machine/acsm.c:134-153 | The state added first comes off, -1 exactly when the queue is empty; the node is unlinked twice, the second time to no effect |
| AcsmQueue.StateQueue.Alloc | algo/aho_corasick_state_machine/acsm.c:91-106 | A node of neither ring, with both rings kept |
| Linker.LinkMap.FindLibraries | debugfs/android50/bionic/linker/linker.cpp:927-997 | On success every name has its root with one reference more, everything new is wired to what it needs, and what was there is untouched; a refusal has a reason in the files or in a cycle, and leaves every count, list and library as before |
| Linker.LinkMap.DlOpen | debugfs/android50/bionic/linker/linker.cpp:1072-1095 | The library named, or the program itself, gains one handle; or nothing has changed |
| Linker.LinkMap.DlClose | debugfs/android50/bionic/linker/linker.cpp:1097-1101 | One handle less; exactly what nothing refers to any more goes, and the rest keep their order and children. With `Stable` this keeps every count equal to the open handles plus the child entries, and the graph free of cycles |
| Linker.LinkMap.LoadAll | debugfs/android50/bionic/linker/linker.cpp:952-980 | Everything needed is loaded breadth first and attached, with one reference more for each name asked for |
| Linker.LinkMap.TakeTask | debugfs/android50/bionic/linker/linker.cpp:953-979 | One turn of the loading loop: the library is found and attached, or refused for a reason |
| Linker.LinkMap.LoadLibrary | debugfs/android50/bionic/linker/linker.cpp:808-884 | The same file under another name, or a new library with the names it needs; a refusal only when the file cannot be loaded |
| Linker.LinkMap.FindByName | debugfs/android50/bionic/linker/linker.cpp:886-895 | A loaded library of that name, none exactly if there is none |
| Linker.LinkMap.IsRecursive | debugfs/android50/bionic/linker/linker.cpp:912-925 | True exactly when the library reaches the parent over child lists; the recursion terminates on an acyclic graph |
| Linker.LinkMap.LinkAll | debugfs/android50/bionic/linker/linker.cpp:983-991 | Every library found gets linked, or one cannot be |
| Linker.LinkMap.Unload | debugfs/android50/bionic/linker/linker.cpp:1014-1046 | One reference less; with the last one the children are unloaded and the library goes |
| Linker.LinkMap.UnloadAll | debugfs/android50/bionic/linker/linker.cpp:941-950 | The failure guard takes back every reference the call had given |
| Linker.LinkMap.Free | debugfs/android50/bionic/linker/linker.cpp:300-335 | The library leaves the list and the others keep their order |
| Linker.LinkMap.constructor | debugfs/android50/bionic/linker/linker.cpp:2433-2445 | At process start the program itself is there, held by one reference |
| Linker.Restored | debugfs/android50/bionic/linker/linker.cpp:927-997 | Loading something and unloading it again restores counts, lists and children |
| LinkGraph.SameHandlesSameState | debugfs/android50/bionic/linker/linker.cpp:1014-1046 | Two states with the same handles, nothing unreferenced and the same children where they overlap are the same |
| LinkGraph.EdgeKeepsRanks | debugfs/android50/bionic/linker/linker.cpp:1738-1743 | An edge to a library that does not reach back leaves the graph without cycles |
| Writeback.Control.SetMinRatio | debugfs/android50/kernel/mm/page-writeback.c:531-551 | The promise is taken exactly when it is at most the cap and all promises stay below 100, despite unsigned wrap; the total stays the sum |
| Writeback.Control.SetMaxRatio | debugfs/android50/kernel/mm/page-writeback.c:553-571 | The cap is refused exactly above 100 or below the promise; its fraction is the rounded share of the base |
| Writeback.Control.UpdateDirtyLimit | debugfs/android50/kernel/mm/page-writeback.c:875-900 | The limit follows up at once and down slowly, never below the threshold nor below dirty pages it was above |
| Writeback.GlobalDirtyLimits | debugfs/android50/kernel/mm/page-writeback.c:297-331 | The background threshold is below the dirty one for every setting, sums of two thresholds stay in a word, and both are what was asked for, a quarter more for a favoured task |
| Writeback.LineFalls | debugfs/android50/kernel/mm/page-writeback.c:720-745 | The control line never rises with the dirty pages |
| Writeback.LineBounded | debugfs/android50/kernel/mm/page-writeback.c:720-745 | Inside the control scope the line is at least 2 and at most 2045 |
| Writeback.BalancedAtSetpoint | debugfs/android50/kernel/mm/page-writeback.c:720-745 | The line is exactly 1.0 at the setpoint, no less below it and no more above it |
| Writeback.DistanceFalls | debugfs/android50/kernel/mm/page-writeback.c:739-741 | The fraction of the distance to the setpoint falls and stays proper |
| Writeback.SharesFit | debugfs/android50/kernel/mm/page-writeback.c:607-626 | What all devices get together, the cap aside, is never more than the threshold, for fractions that sum to at most 1 and for any threshold |
| Writeback.CapHolds | debugfs/android50/kernel/mm/page-writeback.c:607-626 | No device gets more than its cap |
| Writeback.PromiseHolds | debugfs/android50/kernel/mm/page-writeback.c:607-626 | A device gets its promised share at every fraction exactly when the product with the threshold does not wrap and the wrapped cap covers it |
| Writeback.PromiseBroken | debugfs/android50/kernel/mm/page-writeback.c:607-626 | A threshold and a promise for which it does not |
| Writeback.NothingWritten | debugfs/android50/kernel/mm/page-writeback.c:607-626 | A device that writes nothing gets its promise, as the products leave it, under its cap |
| Writeback.MoreWritten | debugfs/android50/kernel/mm/page-writeback.c:607-626 | Writing never lowers a device's limit |
| Kmp.ComputeFailureArray | algo/kmp/kmp.cc:10-28 | Each entry is the length of the longest proper border of the prefix up to it |
| Kmp.Match | algo/kmp/kmp.cc:73-104 | The first occurrence, or none |
| Kmp.Search | algo/kmp/kmp.cc:63-110 | Building the array and matching with it finds the pattern exactly when it occurs |
| Kmp.FallBack | algo/kmp/kmp.cc:10-28 | After a mismatch the next candidate is the longest border of the border, and none longer is skipped |
| Kmp.SkipStarts | algo/kmp/kmp.cc:73-104 | A mismatch rules out every start up to where the failure array resumes |
| Crc8.TableMatchesBits | script/c/crc8/crc8.c:53-80 | The table form of any message is the reversed checksum of the message with every byte reversed |
| Crc8.TableIsReversedStep | script/c/crc8/crc8.c:53-70 | Every one of the 256 entries is the bit-by-bit step seen in reverse |
| Crc8.AppendedChecksum | script/c/crc8/crc8.c:24-37 | A message followed by its checksum has checksum 0 |
| Crc8.BurstDetected | script/c/crc8/crc8.c:24-37 | Every burst of at most eight wrong bits changes the checksum |
| Crc8.Crc | script/c/crc8/crc8.c:24-37 | The checksum is the remainder of the message |
| Crc8.CalcCrc | script/c/crc8/crc8.c:6-21 | Eight turns multiply the register by x to the 8 and add the byte |
| Crc8.CrcByTable | script/c/crc8/crc8.c:72-80 | The loop over the table folds the first `counter` bytes |

## Findings

Places where the code does not do what its comments or its callers might expect, each with the exact condition.

- **vmalloc misses an exact fit** (`vmalloc.c:388-395`). The cache is dropped for a request smaller than the known hole
  (`size < cached_hole_size`), not for one of the same size, so a search for exactly that size starts above the hole.
  `Vmalloc.ExactFitIsMissed` drives a new allocator there, in a range of five pages: three one-page areas, the middle one
  freed, a two-page area (the search passes the hole, remembers its size and maps above everything), and then a request
  for one page is refused beside the free page. `TryAlloc` gives the boundary: on a
  refusal nothing larger than the size fits anywhere, and something of the size does exactly if the cache was used, the
  hole size was the size, and there is a fit below the start of the scan.
- **The control line does not reach 2.0** (`page-writeback.c:732` promises it at freerun). The divisor is one more than
  the distance, so inside the control scope the line is at most 2045/1024, and at least 2/1024 (`Writeback.LineBounded`).
- **A device's promised share can be broken** (`page-writeback.c:607-626`). The product of threshold and percentage
  wraps in a 32-bit word. `Writeback.PromiseHolds` says exactly when the promise holds; `Writeback.PromiseBroken` names
  a threshold and shares for which it does not. The cap and the sum over all devices hold even then (`CapHolds`,
  `SharesFit`).
- **An oversized record hides the wrap marker** (`printk.c:426-434`). When a store has emptied the ring and wraps, the
  new record may overwrite the marker that readers start at. `LogRing.EmptiedWrap` says exactly when the marker is still
  read as one, and that it is for every record of the size that `Store` accepts.

## Left out

- dlmalloc: `sys_alloc`, mmapped chunks, several segments, trimming, mspaces, footers, locks, statistics and the
  corruption checks (`RTCHECK`), which never fire on a well-formed heap. What a payload holds is not modelled.
- HeapRuns.Run: `realloc` that moves a block, `calloc`, `memalign` and the bulk calls are not among the requests. A
  request that is refused here would go on to `sys_alloc`.
- Heap.Heap.Malloc: words are 32 bits wide; the test of line 4659 for 8-byte words is not needed.
- pthread mutex: timed lock on recursive and errorcheck mutexes (it may time out after taking a wakeup), destroy,
  attributes, the debug hooks. Steps are sequentially consistent. Weak memory ordering is not modelled.
- NormalMutex.FreeLockIsTaken: that enabled steps are taken at some time is the scheduler's part; the lemma gives the
  steps.
- RecursiveMutex.FreeLockIsTaken: the same.
- vmalloc: page tables, TLB flushing, per-CPU block queues, RCU, the counter of lazy pages that triggers a purge, and
  allocating the descriptors.
- Vmalloc.VmapAllocator.TryAlloc: assumes that rounding the end of an area up never leaves the address space; the
  unsigned overflow of address plus size is modelled. Sizes, alignment and ranges are those the code's own checks demand.
- PercpuAreas.GetAreas: the code's `BUG_ON` checks of the layout are assumptions, and the rounded range is not empty.
- printk: the oops buffer, the continuation buffer, console registration, `syslog_print_all` and
  `kmsg_dump_get_buffer`. Level and flags share a byte in the code and are written as one byte here.
- LogRing.Log.Store: twice the record and a header fit the buffer, as the code assumes; beyond that see `EmptiedWrap`.
- LogSyslog.Syslog.Print: one read runs without a store or a console round in between; those happen between reads. A
  failing copy to the user is not modelled.
- acsm: empty patterns, a second compile, failing allocations, freeing the context.
- Linker.LinkMap.FindLibraries: opening and mapping files, relocation, constructors, preloads of the executable, extended
  flags and the old format of library records. What loading and linking a file does is a parameter. The program itself
  is linked from the start.
- Linker.LinkMap.IsRecursive: looks for the libraries that have `parent` in their child lists, where the code walks the
  parent list. The code's parent lists can hold stale entries after an unload, because unloading empties the child list
  first. The two agree whenever they are asked: a library that needs another one now, and every library
  above it over parent entries, was loaded by the same call, so nothing was unloaded since any of these entries was made.
- Kmp.Search: the `-m` mode, line numbers and printing.
- Writeback: sleeping, timers and the part of `bdi_position_ratio` that scales by device. `Control` starts from any
  devices whose shares are in order instead of registering them one by one.
- Writeback.SharesFit: the write fractions are given over a common denominator, and their 64-bit product is not wrapped:
  a threshold and a numerator each below 2^32 have a product below 2^64.
- Crc8.CrcByTable: the counter is a natural number, where the code's is a `char`.
