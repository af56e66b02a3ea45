# JNU kernel: verified models

Dafny models of the parts of the JNU kernel whose correctness is a property of whole runs rather
than of single functions, with proofs. `dafny verify dfyconfig.toml` checks everything.

**Address spaces** (`Base`, `Vmas`, `DeepCopy`, `Accounts`, `AddressSpaces`). `Mm` holds the frame
pool with its reference counts, the areas of every address space, the page-table entries and the
table pages. `DeepCopy` is a machine with no sharing and no laziness: each mapped page has its own
bytes, fork copies them all, and every result has a stated reason.

**Area tree** (`RbShapes`, `RbTree`, `VmaTree`). The red-black tree over explicit pointers with
parent links, one memory update per assignment of the code. The searches, insertions, splits and
range removals of the areas run on it and do to the list of areas what `Vmas` says.

**Page frames** (`Arith`, `BuddyBlocks`, `BlockSets`, `FreeLists`, `PfnLinks`, `Pmm`). The buddy
allocator with its doubly linked free lists and counters.

**MINIX files** (`MinixBlocks`, `MinixTree`, `MinixFile`). The zone bitmap, the block map with its
indirect tables, and writes that roll back. The volume is a tree of zones; a write adds paths and a
failed one removes exactly those.

**Buffer cache** (`BufferCache`). Slots, pins and dirty marks, as critical sections of any number of
threads and as calls of one.

**Blocking** (`Mutex`, `Futex`, `Sched`). Locked sections are atomic steps of any number of tasks.

**Files and paths** (`Fat32`, `Paths`, `Vfs`, `VfsRuns`). Reading a FAT32 chain on any image,
normalising a path in its buffer, and walking it across mounts through the inode cache.

**Start of a process and random numbers** (`InitialStack`, `Csprng`).

## Main results

- `AddressSpaces.Mm.Run`: every sequence of create, fork, destroy, mmap, munmap, mprotect, load, store
  and fetch behaves as eager copying would, and no call fails without a reason.
- `Accounts.RefcountLaw` and `Accounts.EntriesCovered`: what counts and permissions mean in every
  state reached.
- `AddressSpaces.Mm.CloneSpace`: fork is a deep copy or leaves no trace, and needs no more frames than
  the parent has tables.
- `RbTree.Rb.Insert`, `RbTree.Rb.Erase`, `VmaTree.InsertNode`, `VmaTree.AreaTree.RemoveRange`: the
  code on pointers keeps order, balance and links, and refines the list of areas.
- `BlockSets.Canonical`, `Pmm.Availability`, `Pmm.RunKeeps`: free blocks are determined by free frames, an
  allocation succeeds whenever an aligned run is free, and no run leaves a trace.
- `MinixFile.File.Write`: all or nothing, with the exact condition of each error.
- `BufferCache.Cache.Run` and `BufferCache.Cache.RunCalls`: no interleaving loses a pinned or dirty
  block, and sequential calls are calls on a plain array of blocks.
- `Mutex.Safety` and `Mutex.HandOffCompletes`; `Futex.Table.Run` and `Futex.Table.Wake`;
  `Sched.Scheduler.Run`: exclusion, arrival order, no lost wake-up, one waiter per wake, bounded wait.
- `Fat32.ReadFile` with `Fat32.CheckBpb`; `Paths.Normalize` with `Paths.Idempotent`; `Vfs.Fs.Open` with
  `Vfs.MountResolves`; `VfsRuns.Run` with `VfsRuns.Balanced` and `VfsRuns.OpenAgain`.
- `InitialStack.Decoded` and `Csprng.Unbiased`.

Three promises turn out to hold only under a condition, which is proved to be exact:

- An anonymous mapping into a space without areas, whose length rounds to 2^64 minus one page, wraps
  in the gap search and inserts an area whose end lies below its start (`Vmas.FindGapTopDown`,
  `AddressSpaces.Mm.MapAnonymous`). Every other mapping keeps the invariant.
- A fetch goes by the flags of the area exactly when the page is untouched, its entry is not NX, or
  the area forbids the fetch (`AddressSpaces.Mm.UserFetch`): a page that was only read so far cannot be
  executed even where the area is executable (`AddressSpaces.Mm.FetchAfterRead`).
- A write past the single indirect range finds no room even on an empty volume
  (`MinixFile.File.CreateDouble`); `MinixFile.File.Write` states ENOSPC with that condition.

Two more places where code and its comments differ, following the code: a second mount on one
directory is never refused, because the walk to the target enters the first (`Vfs.Fs.MountOn`), and
requeueing a futex wakes the waiters instead of moving them (`Futex.Table.Requeue`).

## Model

| member | source | states |
|---|---|---|
| `Vmas.FindFlags` | kernel/mm/vma.c:64-80 | in an ordered list the search answers with the flags of the one area that holds the address, and with none exactly when no area does |
| `Vmas.Insert` | kernel/mm/vma.c:41-62 | EEXIST exactly when the new area meets an existing one, and then nothing changes; otherwise only the addresses of the new area change meaning; the list stays ordered exactly when the new area itself is well formed |
| `Vmas.InsertedOnce` | kernel/mm/vma.c:41-62 | the order leaves one place for a new area |
| `Vmas.InsertsOnce` | kernel/mm/vma.c:41-62 | what insertion promises about error and list has one outcome, so the list version and the tree version agree |
| `Vmas.CutFlags` | kernel/mm/vma.c:108-178 | two halves in place of an area give every address the flags it had |
| `Vmas.SplitAt` | kernel/mm/vma.c:108-178 | EINVAL exactly for a boundary outside the area or unaligned; every outcome, failures included, leaves the flags of every address alone; neither re-insertion can fail |
| `Vmas.SplitBoundary` | kernel/mm/vma.c:202-220 | after success no area crosses the boundary, no other boundary is lost, and no address changes flags |
| `Vmas.SplitRange` | kernel/mm/mmap.c:259-277 | both ends of a range become area boundaries without changing the flags of any address; a failed second split leaves a harmless first one |
| `Vmas.RemoveAtFlags` | kernel/mm/vma.c:235-248 | dropping an area unmaps exactly its addresses |
| `Vmas.SetFlagsFlags` | kernel/mm/mmap.c:289-294 | new flags on one area change exactly the addresses it holds |
| `Vmas.WalkGaps` | kernel/mm/vma.c:288-322 | over a non-empty list the walk finds the highest aligned base that fits under the ceiling, and 0 exactly when none fits |
| `Vmas.FindGapTopDown` | kernel/mm/vma.c:264-323 | the answer is the highest fitting base if and only if the list is non-empty or the size is not 2^64 minus one page; in that one case 64-bit wrap-around puts it one page above the ceiling |
| `DeepCopy.Isolation` | kernel/mm/clone_space.c:134-168 | in the reference machine, a run that acts on other spaces leaves every page of a space as it was |
| `DeepCopy.ForkSnapshot` | kernel/mm/clone_space.c:134-168 | whatever the parent and others do after a fork, the child reads what the parent held at the fork |
| `Accounts.RefcountLaw` | kernel/mm/pmm.c:404-481 | at every operation boundary a frame's count is the number of entries that map it over all spaces; a writable entry is non-executable, is not the zero page and is the only entry of its frame; free frames are zero and unmapped |
| `Accounts.EntriesCovered` | kernel/mm/vmm.c:29-42 | no entry of any space grants writing or executing that its area does not |
| `Accounts.TakeFrame` | kernel/mm/pmm.c:250-261 | a frame from the pool is zero, mapped by nobody, and counted once for its holder |
| `Accounts.ReleasePin` | kernel/mm/pmm.c:436-481 | dropping one holder of a frame keeps the accounts and the bytes behind every remaining entry |
| `Accounts.InstallPinned` | kernel/arch/x86_64/paging.c:221-251 | overwriting an entry passes the held count on to the displaced frame |
| `Accounts.ReprotectEntry` | kernel/arch/x86_64/paging.c:288-317 | write permission may be granted to the sole entry of a frame without changing any page anyone reads |
| `Accounts.RemoveEntry` | kernel/arch/x86_64/paging.c:253-286 | an entry that goes leaves one count to be dropped, except for the zero page |
| `Accounts.ShareEntry` | kernel/mm/clone_space.c:109-128 | a second read-only entry with one more count keeps the accounts |
| `Accounts.WriteByte` | kernel/mm/vmm.c:144-245 | writing through a writable entry changes what that entry reads and nothing that any other entry reads |
| `Accounts.FreeDetermined` | kernel/mm/clone_space.c:148-164 | the counts and the free set are determined by which frames are mapped, so undoing the mappings of a failed fork restores both |
| `Accounts.FewerTables` | kernel/arch/x86_64/paging.c:189-210 | a child lacks a table its parent has only while it has fewer tables: a fork needs no more frames than the parent has tables |
| `Accounts.RoomIsFit` | kernel/mm/vma.c:264-323 | the gaps between areas are exactly the room the reference memory has |
| `Accounts.ForkView` | kernel/mm/clone_space.c:134-168 | a child that shares every frame of the parent is, seen from outside, a full copy |
| `AddressSpaces.Mm.constructor` | kernel/mm/pmm.c:537-637 | boot establishes the accounts with no space and an empty memory |
| `AddressSpaces.Mm.AllocFrame` | kernel/mm/pmm.c:233-239 | a free frame leaves the pool; failure exactly when the pool is empty |
| `AddressSpaces.Mm.FreeFrame` | kernel/mm/pmm.c:376-398 | the frame is back in the pool and zero |
| `AddressSpaces.Mm.AllocUserPage` | kernel/mm/pmm.c:250-261 | a free frame with count one; failure exactly when the pool is empty |
| `AddressSpaces.Mm.PutUserPage` | kernel/mm/pmm.c:436-481 | one count less, and at zero the frame is free and zeroed; the precondition is what the code panics on |
| `AddressSpaces.Mm.GetUserPage` | kernel/mm/pmm.c:404-434 | one count more; the only reachable panic is the overflow of a 16-bit count, which halts |
| `AddressSpaces.Mm.EnsureTable` | kernel/arch/x86_64/paging.c:189-210 | one level of the walk: fails only on an empty pool and then changes nothing; never touches another space |
| `AddressSpaces.Mm.PagingMap` | kernel/arch/x86_64/paging.c:221-251 | the entry is installed or nothing mapped changes; with the tables in place it cannot fail and allocates nothing |
| `AddressSpaces.Mm.PagingProtect` | kernel/arch/x86_64/paging.c:288-317 | ENOENT exactly when there is no entry; otherwise the frame stays and the permissions are replaced |
| `AddressSpaces.Mm.HandleCowFault` | kernel/mm/vmm.c:144-245 | after success the page is writable and no page of any space has changed contents; failure only on an empty pool, without effect |
| `AddressSpaces.Mm.HandleLazyFault` | kernel/mm/vmm.c:251-311 | EACCES exactly when the area forbids the access; a filled page reads as the zeros it stood for, writable only after a write and executable only after a fetch |
| `AddressSpaces.Mm.HandleUserFault` | kernel/arch/x86_64/exceptions.c:169-224 | a handled fault leaves an entry that permits the access in an area that allows it; an unhandled one means no area, a forbidden access, a fetch or a read-only area at a present page, or an empty pool |
| `AddressSpaces.Mm.Translate` | kernel/arch/x86_64/exceptions.c:169-224 | a user access with the one fault it may take never changes what any page reads; a write, a fetch or a first access that passes is allowed by the area |
| `AddressSpaces.Mm.UserStore` | kernel/arch/x86_64/exceptions.c:169-224 | a store is exactly a store in the reference memory, or has no effect; it fails only where not allowed or out of frames |
| `AddressSpaces.Mm.UserLoad` | kernel/arch/x86_64/exceptions.c:169-224 | a load returns the byte of the reference memory; it fails only on an absent page that is not readable or for lack of frames |
| `AddressSpaces.Mm.UserFetch` | kernel/arch/x86_64/exceptions.c:169-224 | a fetch succeeds only in an executable area; with frames to spare it goes by the area if and only if the page is untouched, its entry is not NX, or the area forbids the fetch |
| `AddressSpaces.Mm.FetchAfterRead` | kernel/mm/vmm.c:286-295 | counterexample: after a read of an untouched page the zero page is mapped non-executable, and a fetch the area allows is refused |
| `AddressSpaces.Mm.UnmapPage` | kernel/arch/x86_64/paging.c:253-286 | one entry goes, no other page reads differently |
| `AddressSpaces.Mm.PagingUnmap` | kernel/arch/x86_64/paging.c:253-286 | all entries of the range go, with their counts |
| `AddressSpaces.Mm.RemoveArea` | kernel/mm/vma.c:235-248 | one area and its pages go together |
| `AddressSpaces.Mm.SplitAreas` | kernel/mm/vma.c:202-220 | splitting changes neither flags nor contents of any address |
| `AddressSpaces.Mm.RemoveAreas` | kernel/mm/vma.c:222-248 | the walk removes exactly the range |
| `AddressSpaces.Mm.RemoveRange` | kernel/mm/vma.c:190-251 | success is the reference unmap, failure changes nothing visible; EINVAL exactly for an empty range |
| `AddressSpaces.Mm.AddArea` | kernel/mm/mmap.c:138-152 | a well-formed area over free addresses maps zero pages; an ill-formed one into an empty list breaks the invariant |
| `AddressSpaces.Mm.PlaceRange` | kernel/mm/mmap.c:112-135 | MAP_FIXED clears its range, anything else gets the highest gap; EINVAL exactly for a bad fixed range |
| `AddressSpaces.Mm.MapAnonymous` | kernel/mm/mmap.c:75-157 | EINVAL exactly for bad arguments, ENOMEM only for want of heap or room; success is the reference map at the highest gap or the fixed address, and keeps the invariant if and only if the gap search did not wrap; the one failure with a trace is MAP_FIXED out of memory after clearing |
| `AddressSpaces.Mm.Munmap` | kernel/mm/mmap.c:192-220 | success is the reference unmap, failure changes nothing; EINVAL exactly for a bad range |
| `AddressSpaces.Mm.ProtectPage` | kernel/mm/mmap.c:303-356 | write is withheld from shared frames and the zero page, so the accounts survive; contents stay |
| `AddressSpaces.Mm.ProtectArea` | kernel/mm/mmap.c:293-358 | one area takes the flags and its entries never grant more |
| `AddressSpaces.Mm.ProtectAreas` | kernel/mm/mmap.c:279-361 | exactly the covered addresses of the range change flags |
| `AddressSpaces.Mm.Mprotect` | kernel/mm/mmap.c:226-364 | success is the reference protect, failure changes nothing visible; EINVAL exactly for write with exec or a bad range |
| `AddressSpaces.Mm.CreateSpace` | kernel/mm/vmm.c:56-86 | a fresh empty space, or nothing on failure |
| `AddressSpaces.Mm.FreeTable` | kernel/arch/x86_64/paging.c:482-487 | a table page of an empty space returns to the pool |
| `AddressSpaces.Mm.ReleaseTables` | kernel/mm/vmm.c:88-111 | the tables of an emptied space go and the space with them |
| `AddressSpaces.Mm.DestroySpace` | kernel/mm/vmm.c:88-111 | every entry, table and count of the space is returned and no other space reads differently |
| `AddressSpaces.Mm.MakeReadOnly` | kernel/mm/clone_space.c:93-107 | the parent entry loses write and nothing else |
| `AddressSpaces.Mm.SharePage` | kernel/mm/clone_space.c:109-128 | the child entry maps the same frame with one count more, or no frame was left for a table |
| `AddressSpaces.Mm.ClonePage` | kernel/mm/clone_space.c:68-129 | the child page reads as the parent page did, every other page of every space is untouched, and failure means no frame is left |
| `AddressSpaces.Mm.ClonePages` | kernel/mm/clone_space.c:68-129 | the same over all pages of one area |
| `AddressSpaces.Mm.CloneArea` | kernel/mm/clone_space.c:48-132 | the child mirrors one more area of the parent |
| `AddressSpaces.Mm.CloneAreas` | kernel/mm/clone_space.c:148-164 | the child ends with the parent's areas and pages |
| `AddressSpaces.Mm.CloneSpace` | kernel/mm/clone_space.c:134-168 | success is a deep copy in the reference memory; failure restores spaces, tables, free set, counts and every page, and happens only on a full heap or with fewer free frames than the parent has tables |
| `AddressSpaces.Mm.DoMap` | kernel/mm/mmap.c:75-157 | a mapping step gives the address asked for or the highest room of the reference machine, and fails only for the reasons that machine, the heap or the wrap give |
| `AddressSpaces.Mm.DoUnmap` | kernel/mm/mmap.c:192-220 | an unmapping step simulates the reference step; it fails exactly on a bad range, or on a full heap |
| `AddressSpaces.Mm.DoProtect` | kernel/mm/mmap.c:226-364 | a protection step likewise |
| `AddressSpaces.Mm.UserStep` | kernel/arch/x86_64/exceptions.c:169-224 | a load, store or fetch with its fault simulates the reference step; the process is killed only where the flags forbid the access, frames are short, or an NX entry stands in the way of a fetch |
| `AddressSpaces.Mm.SpaceStep` | kernel/mm/clone_space.c:134-168 | creating, forking and destroying spaces simulates the reference step; it fails only for a bad name, a full heap or too few frames |
| `AddressSpaces.Mm.Step` | kernel/mm/vmm.c:144-311 | any one operation keeps the invariant, acts on the reference machine as it should, and returns a result with a stated reason |
| `AddressSpaces.Mm.Run` | kernel/mm/vmm.c:144-311 | for every sequence of operations the copy-on-write, lazily filled system is indistinguishable from eagerly copied memory, results included, and each failure has its reason; it ends early only when a 16-bit count overflows or a mapping wraps the gap search |
| `RbTree.Rb.constructor` | kernel/lib/rbtree.c:15-15 | an empty tree is valid |
| `RbTree.Rb.RotateLeft` | kernel/lib/rbtree.c:32-49 | the pointers after the code hold the rotated tree, parent links included |
| `RbTree.Rb.RotateRight` | kernel/lib/rbtree.c:51-68 | the mirror image |
| `RbTree.Rb.RedUncle` | kernel/lib/rbtree.c:81-85 | recolouring moves the one red-red fault two levels up and keeps order and heights |
| `RbTree.Rb.StraightenLeft` | kernel/lib/rbtree.c:87-90 | the inner grandchild is turned outwards |
| `RbTree.Rb.StraightenRight` | kernel/lib/rbtree.c:106-109 | the mirror image |
| `RbTree.Rb.FinishLeft` | kernel/lib/rbtree.c:91-96 | after the final rotation the fault is gone |
| `RbTree.Rb.FinishRight` | kernel/lib/rbtree.c:110-115 | the mirror image |
| `RbTree.Rb.BlackUncle` | kernel/lib/rbtree.c:86-97 | at most two rotations, after which the parent is black and the order is unchanged |
| `RbTree.Rb.InsertColor` | kernel/lib/rbtree.c:70-123 | from a tree whose one fault is a red parent to a balanced tree with a black root, same order |
| `RbTree.Rb.BlackenRoot` | kernel/lib/rbtree.c:120-122 | the root may be blackened without breaking balance |
| `RbTree.Rb.Link` | kernel/lib/rbtree.c:17-25 | the node hangs red and childless in the chosen slot |
| `RbTree.Rb.Insert` | kernel/lib/rbtree.c:17-123 | link then recolour: a valid red-black tree whose order has the node exactly at its slot |
| `RbTree.Rb.Min` | kernel/lib/rbtree.c:125-131 | the leftmost node of a subtree |
| `RbTree.Rb.First` | kernel/lib/rbtree.c:133-136 | the first node of the order, 0 when empty |
| `RbTree.Rb.Climb` | kernel/lib/rbtree.c:145-148 | the ancestor whose left subtree was just finished |
| `RbTree.Rb.Next` | kernel/lib/rbtree.c:138-149 | the successor in the order, 0 after the last |
| `RbTree.Rb.Transplant` | kernel/lib/rbtree.c:151-164 | one subtree takes the place of another |
| `RbTree.Rb.Splice` | kernel/lib/rbtree.c:258-265 | a node with at most one child is replaced by it |
| `RbTree.Rb.RedSibling` | kernel/lib/rbtree.c:176-181 | a red sibling is rotated away, keeping the shortage where it was |
| `RbTree.Rb.RedNephew` | kernel/lib/rbtree.c:191-198 | the red near nephew becomes the sibling |
| `RbTree.Rb.RedFarNephew` | kernel/lib/rbtree.c:199-207 | the last rotation repairs the shortage |
| `RbTree.Rb.BlackNephews` | kernel/lib/rbtree.c:182-189 | the shortage moves to the parent |
| `RbTree.Rb.OneRedNephew` | kernel/lib/rbtree.c:190-208 | at most two rotations, after which nothing is short |
| `RbTree.Rb.FixupStep` | kernel/lib/rbtree.c:174-244 | one turn repairs the missing black node or moves it one level up, keeping order; both mirror images |
| `RbTree.Rb.EraseFixup` | kernel/lib/rbtree.c:166-249 | from a tree one black node short at a focus to a balanced one, same order |
| `RbTree.Rb.EraseTwo` | kernel/lib/rbtree.c:266-286 | a node with two children is replaced by its successor |
| `RbTree.Rb.AdoptChild` | kernel/lib/rbtree.c:270-281 | the successor is the right child |
| `RbTree.Rb.AdoptDistant` | kernel/lib/rbtree.c:272-281 | the successor lies deeper |
| `RbTree.Rb.TakePlace` | kernel/lib/rbtree.c:278-281 | the successor takes position and colour |
| `RbTree.Rb.Erase` | kernel/lib/rbtree.c:251-287 | exactly the given node leaves the order and the tree stays a red-black tree with correct parent links |
| `VmaTree.FindNode` | kernel/mm/vma.c:64-80 | over the real pointers: the node at the very place the list search finds, 0 exactly when it finds none |
| `VmaTree.FindSlot` | kernel/mm/vma.c:43-57 | refusal exactly when an area of the tree overlaps; otherwise an empty slot between what lies below and what lies above |
| `VmaTree.InsertNode` | kernel/mm/vma.c:41-62 | over the real pointers: same error and same list of areas as insertion into the list |
| `VmaTree.RemoveNode` | kernel/mm/vma.c:82-82 | the area at that place leaves the list, and the node the tree |
| `VmaTree.AreaTree.constructor` | kernel/mm/vma.c:41-62 | an empty tree stands for no areas |
| `VmaTree.AreaTree.Shrink` | kernel/mm/vma.c:141-158 | off the tree, shrunk and back on it: the list differs in that end alone |
| `VmaTree.AreaTree.SplitAt` | kernel/mm/vma.c:108-178 | on the tree as on the list: EINVAL exactly for a bad boundary, otherwise the list is cut or unchanged; neither insertion fails |
| `VmaTree.AreaTree.SplitBoundary` | kernel/mm/vma.c:202-220 | the boundary is crossed by no area any more, and no address changes flags |
| `VmaTree.AreaTree.FirstFrom` | kernel/mm/vma.c:226-233 | the first area that ends above the address |
| `VmaTree.AreaTree.RemoveOne` | kernel/mm/vma.c:235-248 | one area leaves, the successor taken before it goes is next |
| `VmaTree.AreaTree.RemoveInside` | kernel/mm/vma.c:222-248 | the walk over tree nodes removes exactly the range |
| `VmaTree.AreaTree.RemoveRange` | kernel/mm/vma.c:190-251 | on the tree: exactly the range loses its areas; on failure no address has changed |
| `BuddyBlocks.AlignedIsMultiple` | kernel/mm/pmm.c:137-140 | the recursive notion of block alignment is divisibility by the block size |
| `BuddyBlocks.OneZone` | kernel/mm/pmm.c:85-88 | a block lies in one zone |
| `BlockSets.SplitBlock` | kernel/mm/pmm.c:213-220 | halving a block keeps blocks disjoint and covers the same frames |
| `BlockSets.MergeBlocks` | kernel/mm/pmm.c:317-341 | joining buddies keeps blocks disjoint and covers the same frames |
| `BlockSets.OneBlock` | kernel/mm/pmm.c:312-347 | in a fully coalesced set an aligned free run lies inside one block |
| `BlockSets.Canonical` | kernel/mm/pmm.c:312-347 | a fully coalesced set of blocks is determined by the frames it covers |
| `PfnLinks.PushLinks` | kernel/mm/pmm.c:110-124 | head, next and prev after the code form the list with the frame in front; every other list is intact |
| `PfnLinks.RemoveLinks` | kernel/mm/pmm.c:90-108 | the same for unlinking from any position |
| `FreeLists.ListedExactly` | kernel/mm/pmm.c:90-135 | the lists hold exactly the free block heads of their zone and order |
| `Pmm.BuddyZone` | kernel/mm/pmm.c:317-328 | the zone test of the merge loop never fails |
| `Pmm.Availability` | kernel/mm/pmm.c:196-231 | with free blocks coalesced, an allocation can be served exactly when an aligned free run of that size exists |
| `Pmm.SameLive` | kernel/mm/pmm.c:646-698 | with the same live blocks the free blocks and all counters are the same, whatever was allocated and freed between |
| `Pmm.RunKeeps` | kernel/mm/pmm.c:196-398 | over every run of allocations, writes and frees: registered frames and full coalescing stay, free frames are zero whatever owners wrote, and the same live blocks at the end mean the same free blocks and counters |
| `Pmm.FreePart` | kernel/mm/pmm.c:312-347 | free and live blocks never overlap |
| `Pmm.GreedyAdd` | kernel/mm/pmm.c:175-191 | laying the next greedy block keeps the free set coalesced |
| `Pmm.Allocator.constructor` | kernel/mm/pmm.c:537-637 | empty lists, zero counters |
| `Pmm.Allocator.Unlink` | kernel/mm/pmm.c:90-108 | one block leaves its list |
| `Pmm.Allocator.Link` | kernel/mm/pmm.c:110-124 | one block heads its list |
| `Pmm.Allocator.Take` | kernel/mm/pmm.c:126-135 | a free block becomes live with lists, counters and frames in step |
| `Pmm.Allocator.Push` | kernel/mm/pmm.c:110-124 | a live zeroed block becomes free |
| `Pmm.Allocator.Carve` | kernel/mm/pmm.c:213-223 | the unused halves of a larger block return to the lists and nothing can be merged afterwards |
| `Pmm.Allocator.FindOrder` | kernel/mm/pmm.c:203-207 | the smallest sufficient non-empty order |
| `Pmm.Allocator.AllocZone` | kernel/mm/pmm.c:196-231 | what is handed out is the head of the first sufficient list, in the zone asked for; failure changes nothing |
| `Pmm.Allocator.AllocPages` | kernel/mm/pmm.c:196-231 | the normal zone before the DMA zone; the block is aligned, was free, and only it stops being free |
| `Pmm.Allocator.AllocDma` | kernel/mm/pmm.c:263-301 | only frames below 16 MiB |
| `Pmm.Allocator.Absorb` | kernel/mm/pmm.c:318-341 | a free buddy joins the block |
| `Pmm.Allocator.FreePages` | kernel/mm/pmm.c:312-398 | the frames are free and zero again, the live set loses the block, and a coalesced free set stays coalesced |
| `Pmm.Allocator.RegisterBlock` | kernel/mm/pmm.c:146-173 | an unregistered block becomes free and zero |
| `Pmm.Allocator.GreedyOrder` | kernel/mm/pmm.c:175-191 | the largest order the alignment and the remainder allow |
| `Pmm.Allocator.RegisterRange` | kernel/mm/pmm.c:175-191 | exactly the whole pages of the range become free; coalesced if the frames on both sides are not free |
| `Pmm.Allocator.RegisterAll` | kernel/mm/pmm.c:597-611 | ranges with a frame between any two: exactly their frames are free, zero, and nothing can be merged |
| `Pmm.Allocator.Write` | kernel/mm/pmm.c:196-231 | an owner may write to its frames without touching a free one |
| `Pmm.Allocator.Act` | kernel/mm/pmm.c:196-398 | one operation of a run |
| `Pmm.Allocator.Run` | kernel/mm/pmm.c:196-398 | every sequence of allocations, writes by owners and frees goes through consistent states, each block handed out zero and to nobody else |
| `MinixTree.LookupAt` | kernel/fs/minix/inode.c:85-191 | on a well-formed volume the block map reads the zone stored at the block's path |
| `MinixTree.ReservedOk` | kernel/fs/minix/inode.c:66-83 | taking and clearing a free zone keeps the volume well formed |
| `MinixTree.Attach` | kernel/fs/minix/inode.c:96-127 | hanging a fresh zone at an empty path extends the tree by that path |
| `MinixTree.Detach` | kernel/fs/minix/file.c:294-348 | clearing a path added since takes it out again |
| `MinixTree.Restored` | kernel/fs/minix/file.c:240-250 | with every added path gone, zone array and bitmap are what they were |
| `MinixFile.File.AllocFromMap` | kernel/fs/minix/bitmap.c:39-71 | the lowest clear bit up to the limit, 0 exactly when all are set |
| `MinixFile.File.AllocZone` | kernel/fs/minix/bitmap.c:116-132 | the lowest free zone, 0 exactly when the volume is full |
| `MinixFile.File.AllocDataZone` | kernel/fs/minix/inode.c:66-83 | a free zone, taken and zeroed |
| `MinixFile.File.SafeFreeZone` | kernel/fs/minix/file.c:32-45 | clears the bit of a zone in the data area and no other |
| `MinixFile.File.EnsureRoot` | kernel/fs/minix/inode.c:96-112 | an inode pointer is filled unless the volume is full |
| `MinixFile.File.EnsureEntry` | kernel/fs/minix/inode.c:123-128 | the same for a table entry |
| `MinixFile.File.CreateDirect` | kernel/fs/minix/inode.c:95-103 | a direct block is mapped, taking at most its own zone |
| `MinixFile.File.CreateSingle` | kernel/fs/minix/inode.c:106-131 | a single indirect block is mapped, taking at most table and block |
| `MinixFile.File.CreateDouble` | kernel/fs/minix/inode.c:134-173 | past the single indirect range no block is ever mapped; at most tables are added |
| `MinixFile.File.Create` | kernel/fs/minix/inode.c:85-191 | the three ranges together |
| `MinixFile.File.Find` | kernel/fs/minix/inode.c:85-191 | the block map on any image, corrupt ones included |
| `MinixFile.File.Read` | kernel/fs/minix/file.c:53-96 | exactly the bytes of the file in the range, cut at the size, holes as zeros |
| `MinixFile.File.MapRange` | kernel/fs/minix/file.c:164-174 | success exactly takes the zones the range needs; failure means the range is out of reach or the volume is full |
| `MinixFile.File.CopyIn` | kernel/fs/minix/file.c:176-203 | the bytes of the range change to the data, no other byte of the file or of anything else does |
| `MinixFile.File.DropRoot` | kernel/fs/minix/file.c:300-306 | an inode pointer and its bit are cleared |
| `MinixFile.File.DropEntry` | kernel/fs/minix/file.c:308-347 | a table entry and its bit are cleared |
| `MinixFile.File.ClearBlockMapping` | kernel/fs/minix/file.c:294-348 | the zone of one block is given back and its pointer cleared |
| `MinixFile.File.IndirectEmpty` | kernel/fs/minix/file.c:350-368 | whether all 512 entries are zero |
| `MinixFile.File.PruneRoot` | kernel/fs/minix/file.c:375-379 | an indirect table is dropped exactly when the write had added it |
| `MinixFile.File.PruneInner` | kernel/fs/minix/file.c:383-394 | the inner tables likewise |
| `MinixFile.File.Prune` | kernel/fs/minix/file.c:370-400 | exactly the tables added by the failed write go |
| `MinixFile.File.Rollback` | kernel/fs/minix/file.c:240-250 | undoes every path the write added |
| `MinixFile.File.Abandon` | kernel/fs/minix/file.c:215-250 | restores visible bytes from the backup, then rolls back |
| `MinixFile.File.WriteRange` | kernel/fs/minix/file.c:137-250 | ENOSPC exactly when the range needs an unreachable block or more zones than are free; failure leaves size, time, block map, bitmap and visible bytes as they were |
| `MinixFile.File.Write` | kernel/fs/minix/file.c:109-251 | the exact condition of EINVAL, ENOMEM and ENOSPC; all-or-nothing; success reads back as written, takes exactly the needed zones and leaves every other byte of file and volume |
| `MinixFile.ZonesTaken` | kernel/fs/minix/file.c:164-174 | the paths added are matched one to one by zones taken |
| `MinixFile.RoomCounted` | kernel/fs/minix/file.c:164-174 | allocation fails exactly when counting says so beforehand |
| `MinixFile.ExtendsRaw` | kernel/fs/minix/inode.c:66-83 | mapping blocks changes no byte that can be read, since new zones are zero |
| `MinixFile.PutData` | kernel/fs/minix/file.c:190-198 | writing inside one block changes those bytes only and keeps the volume well formed |
| `MinixFile.IoFailure` | kernel/fs/minix/file.c:215-250 | overwriting with the backup and undoing the tree restores every byte below the old size |
| `BufferCache.PickVictim` | kernel/fs/minix/buffer.c:60-77 | the least recently used slot that is neither pinned, dirty nor loading, an unused one first; none exactly when there is none |
| `BufferCache.Synced` | kernel/fs/minix/buffer.c:217-256 | with nothing left to write, disk and view agree |
| `BufferCache.KeptThroughout` | kernel/fs/minix/buffer.c:60-77 | a slot pinned or dirty throughout a trace holds the same bytes of the same block at its end |
| `BufferCache.Cache.Lookup` | kernel/fs/minix/buffer.c:100-147 | hit, wait for a loader, miss with a legal victim, or full: the exact case and new slots, no two slots ever sharing a key |
| `BufferCache.Cache.Loaded` | kernel/fs/minix/buffer.c:149-164 | the end of a load, failed or not |
| `BufferCache.Cache.Put` | kernel/fs/minix/buffer.c:176-190 | one pin less |
| `BufferCache.Cache.SetDirty` | kernel/fs/minix/buffer.c:192-209 | the slot is dirty and counted once |
| `BufferCache.Cache.SyncPin` | kernel/fs/minix/buffer.c:225-232 | the slot is pinned across the unlocked write exactly when it is to be written |
| `BufferCache.Cache.SyncDone` | kernel/fs/minix/buffer.c:241-249 | clean only after a successful write |
| `BufferCache.Cache.Do` | kernel/fs/minix/buffer.c:92-256 | any one locked section keeps the invariant and never takes a pinned or dirty slot from its holder |
| `BufferCache.Cache.Run` | kernel/fs/minix/buffer.c:92-256 | every interleaving: unique keys in every state, exact dirty count, and from each state to the next no pinned or dirty slot loses its block |
| `BufferCache.Cache.Get` | kernel/fs/minix/buffer.c:92-165 | the slot shows what was last stored for the block; refused exactly when not cached and the read fails or nothing can be evicted |
| `BufferCache.Cache.Store` | kernel/fs/minix/buffer.c:92-165 | a holder writing the buffer changes the view of that block alone |
| `BufferCache.Cache.PutBack` | kernel/fs/minix/buffer.c:176-190 | giving a buffer back loses nothing, provided changes were marked |
| `BufferCache.Cache.MarkDirty` | kernel/fs/minix/buffer.c:192-209 | marking, with the flush it may trigger, changes no view |
| `BufferCache.Cache.SyncSlot` | kernel/fs/minix/buffer.c:225-252 | one slot written back; failure only for a bad block |
| `BufferCache.Cache.Sync` | kernel/fs/minix/buffer.c:217-256 | success makes the disk equal the view for the device; failure loses nothing |
| `BufferCache.Cache.Invalidate` | kernel/fs/minix/buffer.c:263-282 | only unwritten dirty data is lost |
| `BufferCache.Cache.FlushAll` | kernel/fs/minix/buffer.c:263-282 | after a successful sync nothing is lost; after a failed one exactly the still dirty, unpinned blocks are |
| `BufferCache.Cache.ReadBlock` | kernel/fs/minix/buffer.c:92-190 | a read returns the reference block |
| `BufferCache.Cache.WriteBlock` | kernel/fs/minix/buffer.c:92-209 | a write changes the reference block and no other, and happens exactly when the block can be had |
| `BufferCache.Cache.DoGet` | kernel/fs/minix/buffer.c:92-165 | a get gives a handle for the block of the array; nothing only on a failing read, an unknown block or 64 slots pinned or dirty |
| `BufferCache.Cache.DoHolder` | kernel/fs/minix/buffer.c:176-209 | a holder sees and changes the bytes of its block, marks and gives back |
| `BufferCache.Cache.DoSync` | kernel/fs/minix/buffer.c:217-256 | a sync changes no block of the array |
| `BufferCache.Cache.DoFlush` | kernel/fs/minix/buffer.c:263-282 | a flush loses only unheld blocks whose write failed |
| `BufferCache.Cache.RunCalls` | kernel/fs/minix/buffer.c:92-282 | any sequential run of gets, looks, changes, marks, puts, syncs and flushes, with buffers held across calls and through any evictions, is a run over a plain array of blocks |
| `Mutex.StepInv` | kernel/lib/mutex.c:47-167 | every step of any number of tasks over any number of mutexes keeps the invariant |
| `Mutex.RunInv` | kernel/lib/mutex.c:47-167 | so does every run |
| `Mutex.Safety` | kernel/lib/mutex.c:47-148 | on every run: at most one holder, a holder is the owner, no owner means no waiter, ownership is granted in arrival order, and a sleeping owner always has a wake-up coming |
| `Mutex.HandedOffAt` | kernel/lib/mutex.c:129-143 | handing over keeps owner, queue and pending wake in step |
| `Mutex.SleepAt` | kernel/kernel/sched.c:649-669 | a wake credit left before the sleep turns it into a re-check, so no wake-up is lost |
| `Mutex.DeliverAt` | kernel/kernel/sched.c:671-694 | a delivered wake-up either rouses the task or leaves a credit |
| `Mutex.PokeAt` | kernel/kernel/sched.c:671-694 | a stray wake-up of anyone does no harm |
| `Mutex.HandOffCompletes` | kernel/lib/mutex.c:104-113 | from any reachable state a waiter that owns the mutex can hold it within three steps |
| `Futex.Table.constructor` | kernel/kernel/futex.c:107-135 | empty buckets |
| `Futex.Table.BucketRemove` | kernel/kernel/futex.c:93-105 | removes exactly the waiter, or nothing when absent |
| `Futex.Table.Enter` | kernel/kernel/futex.c:137-159 | EFAULT or EAGAIN leave the bucket as it was; otherwise the waiter heads its bucket |
| `Futex.Table.Look` | kernel/kernel/futex.c:168-176 | the woken flag decides |
| `Futex.Table.Rest` | kernel/kernel/futex.c:178-205 | sleep, timeout or signal, spending a wake credit instead of sleeping |
| `Futex.Table.Return` | kernel/kernel/sched.c:588-632 | how a sleep ends |
| `Futex.Table.Consume` | kernel/kernel/futex.c:170-174 | a woken waiter spends the credit |
| `Futex.Table.Cleanup` | kernel/kernel/futex.c:210-224 | a wake that raced with giving up is honoured: the result is success exactly when woken, and the waiter is in no bucket |
| `Futex.Table.SchedWake` | kernel/kernel/sched.c:671-694 | a sleeper is roused, anyone else gets a credit |
| `Futex.Table.MarkWoken` | kernel/kernel/futex.c:252-263 | one waiter leaves its bucket, is marked and its task woken |
| `Futex.Table.Wake` | kernel/kernel/futex.c:226-271 | wakes exactly the first min(count, matching) waiters on the key, in bucket order; every other waiter, bucket, sleeper and credit is as it was |
| `Futex.Table.Requeue` | kernel/kernel/futex.c:273-288 | wakes min(matching, wake + requeue): nothing is moved to another key |
| `Futex.Table.Elsewhere` | kernel/kernel/sched.c:671-713 | wake-ups and expiries from outside keep the invariant |
| `Futex.Table.Do` | kernel/kernel/futex.c:107-288 | any one locked section keeps the invariant, and no finished wait ever changes |
| `Futex.Table.Run` | kernel/kernel/futex.c:107-288 | on every interleaving: the wakes reported are exactly the waits marked, a wait returns success exactly when marked, and finished waits are in no bucket |
| `Futex.Table.Finish` | kernel/kernel/futex.c:168-224 | a marked waiter that runs on its own returns success, whatever state it was in |
| `Futex.Charged` | kernel/kernel/futex.c:107-271 | each reported wake is charged to one wait and that wait returns success |
| `Sched.Scheduler.constructor` | kernel/kernel/sched.c:280-314 | boot and idle task only |
| `Sched.Scheduler.Push` | kernel/kernel/sched.c:63-72 | head, tail and next links hold the queue with the task at its end |
| `Sched.Scheduler.Pop` | kernel/kernel/sched.c:74-87 | and without its first |
| `Sched.Scheduler.Unlist` | kernel/kernel/sched.c:758-773 | exactly one task leaves the list |
| `Sched.Scheduler.Schedule` | kernel/kernel/sched.c:139-206 | the runner goes to the end if still runnable and the front runs, idle only when nobody waits; the new tasks and queue exactly |
| `Sched.Scheduler.Yield` | kernel/kernel/sched.c:537-542 | the same for a task that gives way |
| `Sched.Scheduler.Sleep` | kernel/kernel/sched.c:588-669 | a credit is spent instead of sleeping; otherwise the task is off the queue |
| `Sched.Scheduler.Wake` | kernel/kernel/sched.c:671-694 | a sleeper is queued once, anyone else gets a credit |
| `Sched.Scheduler.Expire` | kernel/kernel/sched.c:696-713 | exactly the sleepers past their deadline are queued, in list order |
| `Sched.Scheduler.Tick` | kernel/kernel/sched.c:715-746 | expiry every tick, a switch exactly when the slice is used up |
| `Sched.Scheduler.Create` | kernel/kernel/sched.c:513-521 | refused exactly at the task limit |
| `Sched.Scheduler.Exit` | kernel/kernel/sched.c:544-573 | the runner is a zombie, or gone if detached, and the next in line runs |
| `Sched.Scheduler.Reap` | kernel/kernel/sched.c:775-802 | a zombie is forgotten |
| `Sched.Scheduler.Do` | kernel/kernel/sched.c:537-802 | any one operation keeps the queue free of duplicates, sleepers, zombies, the runner and idle |
| `Sched.Scheduler.Run` | kernel/kernel/sched.c:537-802 | on every run a queued task with k ahead of it is picked at exactly the (k+1)th switch and not before; with n switches so far, n at most k, it is queued with k - n ahead |
| `Sched.SwitchOk` | kernel/kernel/sched.c:139-206 | a switch keeps exactly one running task and a queue of runnable others |
| `Sched.TurnComes` | kernel/kernel/sched.c:63-87 | first in, first out gives every queued task its turn |
| `Fat32.CheckBpb` | kernel/fs/fat32/super.c:60-120 | acceptance exactly by the listed conditions, and an accepted geometry is sound |
| `Fat32.ParseBpb` | kernel/fs/fat32/super.c:28-133 | the same from the bytes of the boot sector |
| `Fat32.SoundGeometry` | kernel/fs/fat32/super.c:76-120 | table and data area lie inside the device, apart, with room for every cluster |
| `Fat32.DataInside` | kernel/fs/fat32/fat.c:20-34 | a sector of a valid cluster is on the device and outside the tables |
| `Fat32.FatInside` | kernel/fs/fat32/fat.c:41-67 | the entry of a valid cluster lies in one sector of the first table |
| `Fat32.NextCluster` | kernel/fs/fat32/fat.c:41-67 | the one sector read holds the whole entry: the result is that word of the table taken as one run of bytes, without its top four bits |
| `Fat32.Walk` | kernel/fs/fat32/file.c:45-54 | stands at the chain's cluster of that index, or fails exactly when the chain is shorter |
| `Fat32.CopyOut` | kernel/fs/fat32/file.c:56-91 | the bytes of the chain in the range |
| `Fat32.ReadFile` | kernel/fs/fat32/file.c:24-94 | a read is a slice of the concatenated clusters of the chain, cut at the size, and stops on any image, cyclic chains included |
| `Fat32.AcyclicChain` | kernel/fs/fat32/file.c:45-54 | the step limit never cuts a chain that ends |
| `Fat32.VisitNext` | kernel/fs/fat32/fat.c:52-67 | each cluster visited is valid and is the table successor of the one before |
| `Paths.SkipSlash` | kernel/fs/vfs.c:379-384 | skipping slashes leaves the remaining components |
| `Paths.NextComponent` | kernel/fs/vfs.c:386-405 | splits off the first component; end and too-long are recognised exactly |
| `Paths.PopComponent` | kernel/fs/vfs.c:354-361 | in the buffer: the last name goes, the root stays |
| `Paths.PushComponent` | kernel/fs/vfs.c:363-372 | in the buffer: one more name after a slash |
| `Paths.Normalize` | kernel/fs/vfs.c:335-377 | EINVAL exactly for relative paths, ENAMETOOLONG exactly when a component or some prefix of the result is too long, otherwise the resolved names joined by single slashes and terminated |
| `Paths.Idempotent` | kernel/fs/vfs.c:335-377 | a normal form is absolute, holds exactly the resolved names and is its own normal form |
| `Paths.FoldNames` | kernel/fs/vfs.c:342-372 | what remains are proper names: no dot, dot-dot, empty name or slash |
| `Paths.ComponentsTail` | kernel/fs/vfs.c:363-405 | joining names and splitting again gives the names |
| `Vfs.Fs.constructor` | kernel/fs/vfs.c:177-180 | empty cache, nothing mounted |
| `Vfs.Fs.Canonicalize` | kernel/fs/vfs.c:89-110 | one object per mount and inode number, with one reference more |
| `Vfs.Fs.Reuse` | kernel/fs/vfs.c:96-104 | a cached object gets one reference more, nothing else changes |
| `Vfs.Fs.Keep` | kernel/fs/vfs.c:106-109 | an inode not cached becomes a new object, nothing else changes |
| `Vfs.Fs.Iput` | kernel/fs/vfs.c:121-151 | one reference less; the object goes exactly with the last, and no other changes |
| `Vfs.Fs.Descend` | kernel/fs/vfs.c:308-317 | one reference is traded for one to the mounted root |
| `Vfs.Fs.CrossMounts` | kernel/fs/vfs.c:290-322 | ends at the place no mount covers, with the reference traded, or with the error and no reference |
| `Vfs.Fs.Begin` | kernel/fs/vfs.c:498-507 | a reference to where paths start |
| `Vfs.Fs.Forward` | kernel/fs/vfs.c:528-540 | one lookup and the mounts above it |
| `Vfs.Fs.Advance` | kernel/fs/vfs.c:518-540 | the same with the directory and permission checks first |
| `Vfs.Fs.Follow` | kernel/fs/vfs.c:509-544 | all components, at the cost of the starting reference |
| `Vfs.Fs.Open` | kernel/fs/vfs.c:482-545 | exactly one new reference, to the inode the path means, or the exact error and no reference leaked |
| `Vfs.Fs.FollowParent` | kernel/fs/vfs.c:439-479 | all components but the last |
| `Vfs.Fs.Parent` | kernel/fs/vfs.c:413-480 | exactly one new reference, to the directory holding the last name |
| `Vfs.Fs.PinRoot` | kernel/fs/vfs.c:273-277 | the root of a new mount is pinned in the cache |
| `Vfs.Fs.MountRoot` | kernel/fs/vfs.c:210-231 | EBUSY exactly when the root is mounted; otherwise what the filesystem says |
| `Vfs.Fs.Target` | kernel/fs/vfs.c:237-248 | the place a mount would cover, with no reference kept |
| `Vfs.Fs.MountOn` | kernel/fs/vfs.c:233-280 | the exact error; the already-mounted refusal can never happen, since the walk enters the existing mount; success fills the first free slot above the covered one |
| `Vfs.FindCover` | kernel/fs/vfs.c:295-306 | the first mount on a directory |
| `Vfs.FreeSlot` | kernel/fs/vfs.c:250-264 | busy exactly when covered; otherwise the first free slot, 0 exactly when full |
| `Vfs.EnteredBound` | kernel/fs/vfs.c:290-322 | entering ends, at a place no mount covers |
| `Vfs.ResolvedUncovered` | kernel/fs/vfs.c:482-545 | a path never leads to a directory that something is mounted on |
| `Vfs.MountEnters` | kernel/fs/vfs.c:268-280 | a mount redirects exactly the entries that ended at the covered directory |
| `Vfs.MountResolves` | kernel/fs/vfs.c:233-280 | after a mount a path that ended at the target ends at the new root, and every other path not passing through it ends where it did |
| `VfsRuns.EffectiveAgrees` | kernel/fs/vfs.c:79-110 | with attributes taken from cached objects first, cache and disk agree whatever the disk says |
| `VfsRuns.SameInode` | kernel/fs/vfs.c:89-151 | over a run an object is the same inode for as long as it exists |
| `VfsRuns.OpenAgain` | kernel/fs/vfs.c:89-110 | opening a place whose object still exists gives that object |
| `VfsRuns.Balanced` | kernel/fs/vfs.c:121-151 | over a run references are conserved: held at the end plus given back is held at the start plus given out |
| `VfsRuns.DoOpen` | kernel/fs/vfs.c:482-545 | an open in a run: the exact result, whatever changed on disk before |
| `VfsRuns.DoParent` | kernel/fs/vfs.c:413-480 | a parent lookup likewise |
| `VfsRuns.DoClose` | kernel/fs/vfs.c:735-745 | a close gives up one held reference |
| `VfsRuns.DoMount` | kernel/fs/vfs.c:191-280 | a mount likewise, with its exact error |
| `VfsRuns.Run` | kernel/fs/vfs.c:89-545 | every run of opens, parent lookups, closes and mounts with the disk changing in between: each call exact, one object per inode, counts equal references held |
| `InitialStack.Space.WriteTo` | kernel/exec/elf64.c:207-235 | the bytes land in order across page boundaries and no other byte changes; success exactly when the range is mapped |
| `InitialStack.Space.PushStrings` | kernel/exec/elf64.c:480-510 | the strings lie packed, in order, terminated; failure exactly when they do not fit |
| `InitialStack.Space.PlaceStrings` | kernel/exec/elf64.c:480-510 | environment above arguments, neither disturbing the other |
| `InitialStack.Space.PlaceFrame` | kernel/exec/elf64.c:519-539 | count and pointer vectors in the layout of the ABI, below the strings |
| `InitialStack.Space.Setup` | kernel/exec/elf64.c:416-550 | E2BIG exactly when the arguments do not fit; success leaves a 16-byte aligned pointer to a complete frame and touches nothing outside it |
| `InitialStack.Decoded` | kernel/exec/elf64.c:519-539 | reading memory back from the stack pointer recovers argc, argv, envp and every string |
| `InitialStack.ReadFrame` | kernel/exec/elf64.c:519-539 | each stored word reads back, across page boundaries |
| `InitialStack.StringUnique` | kernel/exec/elf64.c:480-510 | memory at an address spells at most one text |
| `Csprng.ThresholdIsRemainder` | kernel/lib/csprng.c:375-379 | the 64-bit negation trick computes 2^64 modulo the bound |
| `Csprng.Unbiased` | kernel/lib/csprng.c:366-386 | each value below the bound is hit by the same number of accepted 64-bit draws |
| `Csprng.Bounded` | kernel/lib/csprng.c:366-386 | the result is the first accepted draw reduced, below the bound |

## Left out

- AddressSpaces.Mm.Run: after a reference count overflows its 16 bits the system has panicked, and after a mapping has wrapped the gap search an area is ill formed; nothing is claimed from there on. Whether the kernel heap has room is a parameter of each call.
- AddressSpaces.Mm.PagingMap: the four-level table is a map from pages to entries plus the set of table pages on the way; the bytes of table pages, huge pages, the kernel half and TLB shootdown are not modelled.
- AddressSpaces.Mm.AllocFrame: any free frame may be taken, which covers the choice made by the buddy allocator; the two models are not composed.
- AddressSpaces.Mm.AddArea: with room in the kernel heap it cannot fail; without, any allocation of the call may, and nothing says which.
- AddressSpaces.Mm.UserLoad: after mprotect to no access a page that is present stays readable, as in the code.
- Vmas.Insert: works on the in-order list; `VmaTree.InsertNode` is the same operation on the tree, with the same outcome by `Vmas.InsertsOnce`. `AddressSpaces` uses the list.
- VmaTree.InsertNode: the area of a node is a map from node to area, not memory next to the node; the nodes a split allocates are parameters.
- RbTree.Rb.Erase: the node must be in the tree, which the code assumes.
- Pmm.Allocator.FreePages: the block must be live at the order given; the validation that panics otherwise is not modelled.
- Pmm.Allocator.Run: frame 0 is not registered, since callers read the answer 0 as a failure; registration comes before the run.
- Pmm.Allocator.RegisterRange: ranges that touch an already free frame may leave uncoalesced buddies, as in the code; then only the accounts are claimed.
- MinixFile.File.Write: the volume must be well formed and without empty indirect tables; reads of table blocks and of the backup succeed, only the copy may meet a failing block; the buffer cache in between is left to `BufferCache`; at most one write runs at a time.
- MinixFile.File.Find: reads are modelled on any image, corrupt ones included.
- BufferCache.Cache.Sync: data is claimed for sequential runs only, since the code writes with the lock dropped; interleavings keep slot uniqueness, pins and the dirty count.
- BufferCache.Cache.PutBack: requires that changes were marked dirty first, which is the duty of the caller; in `RunCalls` a put before the mark is not made.
- Mutex.Safety: the unlocking task reads the waiter's task before releasing the guard, where the code reads it after; the panics on recursive locking and foreign unlocking are disabled steps.
- Mutex.HandOffCompletes: states that the steps exist and are enabled, not that the scheduler takes them.
- Futex.Table.Enter: the alignment and range checks of the address, which return before anything changes, are left out; the value read from user memory is a parameter.
- Futex.Table.Rest: time is a parameter that says whether the deadline has passed.
- Sched.Scheduler.Schedule: registers, stacks, FPU state, CR3 and TSS switching are not modelled; the field that links run-queue entries is a map of its own; the deadline a task resets after a timed sleep is not followed.
- Sched.Scheduler.Create: the limit check and insertion only, not the allocations before them.
- Sched.Scheduler.Run: fairness counts switches, not time.
- Fat32.ReadFile: device errors and the sector cache are not modelled.
- Paths.Normalize: strings end at their length and hold no zero character.
- Vfs.Fs.Open: during one walk cached attributes agree with the disk, which `VfsRuns.EffectiveAgrees` provides; lookups do not report success as an error; concurrent walks and closing with write-back are not modelled.
- Vfs.Fs.MountOn: choosing the filesystem and the block device, with ENODEV, is left out; what the filesystem's own mount returns is a parameter.
- Vfs.MountResolves: paths that pass through the covered directory on the way to somewhere else are not described.
- InitialStack.Space.Setup: starts when the stack pages are mapped; argument sizes stay below 1 GiB, while the capture limits of execve are 64 KiB.
- Csprng.Bounded: the draws are a parameter; the generator itself (ChaCha20, BLAKE2s, entropy) is not part of this model.
- MINIX directories, truncation, the inode bitmap and unlink-while-open.
- FAT32 directories and names.
- ELF validation and loading, execve, signals, process groups, wait and exit.
- Drivers, interrupts, assembly, boot, consoles, slab allocator, cpio, shell and user programs.
- System call argument copying.
