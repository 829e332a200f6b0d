# Lethe kernel: verified models of its core algorithms

This project models the parts of the Lethe x86_64 kernel that manipulate shared
structures step by step, and proves what those parts promise for every input and
every run:

- **The memory stack.** `liballoc` (boundary-tag heap with split, melt and absorb,
  32 size classes and a cap on standby blocks) over the first-fit page list, which
  grows through the four-level page table, which is fed by the boot-time frame
  allocator. `HeapModel`, `HeapOps`, `HeapSpec` and `HeapTheorems` hold the heap as
  a value with its invariant; `Liballoc` is the code on mutable tags; `RegionModel`
  and `Regions` are the page list; `PageModel` and `Paging` the page tables;
  `Frames` the frame allocator; `MemoryStack` puts heap and page list together as
  values, and `KernelHeap` the four classes in place.
- **The hash map and its hash.** `HashTable` (open addressing, doubling) and `Fnv`.
- **The AML reader.** `AmlSyntax`, `AmlTerms` and `AmlParse` say what the readers
  compute from bytes; `AmlNames` is the namespace tree; `AmlData`, `AmlGrammar` and
  `AmlMeaning` give well-formed data and tables and their meaning; `AmlLookup` and
  `AmlReader` are the code with its loops and cursors; `AmlCursor` and `AmlDevice`
  hold facts about cursors and about Device terms.
- **The printf engine.** `PrintfModel` and `PrintfFormat` say what is printed,
  `PrintfFields` what a number field reads back as, `PrintfStandard`, `PrintfAlternate`
  and `PrintfConform` what ISO C11 has for a field without `#`, with `#` and for a whole
  format, and `Printf` is the code.
- **Scheduler and PCI search.** `RingQueue`, `Tasks` and `Pci`.

Code that works in place is modelled by classes and methods with loops; each method
is proved against a specification function, and the theorems are about those
functions. Panics, aborts, failed assertions and faults are results, not
preconditions. `dafny verify dfyconfig.toml` checks everything.

## Where the code differs from its intent

The code is modelled as written. For each deviation lemmas give the exact condition
under which the intended property holds, and an input at which it fails.

- `list_alloc` puts the remainder of a split at `region + excess` pages. Memory is
  conserved if and only if the split is into equal halves
  (`RegionModel.LendConservesIff`, `RegionModel.RunSafeIff`), which is so for all
  runs of 16-page requests (`RegionModel.MinimumRunsAreSafe`) and fails for a
  20-page request at boot (`RegionModel.UnevenSplitOverlaps`).
- `push_queue` takes a queue with one entry for full and does not notice a queue
  with nine: it appends if and only if there is neither one entry nor nine
  (`RingQueue.Queue.PushQueue`). So only the kernel task and the first created task
  ever run (`Tasks.TwoTasksAlternate`, `Tasks.LaterTasksStarve`).
- `vprintf` clears its flags once per call. A directive sees its own flags and all
  that earlier ones left (`PrintfFormat.DirectiveAccumulates`); all are read as
  written if and only if each sets what was left over
  (`PrintfFormat.ReadAsWrittenIff`), and then the output is what clearing the flags
  per directive would print (`PrintfFormat.FreshWhenNothingLeftOver`). A left-over
  precision swallows strings: "%.1d%s" prints its number alone
  (`PrintfFormat.TextVanishes`).
- `__ntoa` drops the precision under `-`, and stops at 48 characters. Without `#` its
  field is the one ISO C11 prescribes if and only if neither matters
  (`PrintfStandard.FieldIffStandard`); it matters to `%-.3d`
  (`PrintfStandard.LeftDropsPrecision`). A negative precision from an argument counts as
  0 instead of none (`PrintfConform.DirectiveIff`,
  `PrintfConform.NegativePrecisionExample`).
- `#` makes room for its mark by cutting one or two characters off a buffer that is as
  long as the width, whether they are zeros or digits. The field reads back as the value
  if and only if it cuts no more than there are zeros (`PrintfFields.FieldReadsIff`),
  which fails for `%#4x` of 0x1234 (`PrintfFields.HashLosesDigits`). `%#X` gets a small x
  (`PrintfAlternate.CapitalPrefix`), and `%#.3o` a zero too many
  (`PrintfAlternate.OctalZeroTooMany`). The field of `%#o`, `%#x` and `%#X` is the one
  ISO C11 prescribes if and only if `PrintfAlternate.AltAgrees` holds
  (`PrintfAlternate.AlternateIff`). A format whose directives agree and leave no flags
  over prints the standard's text (`PrintfConform.PrintsStandard`).
- `def_device` reuses a name buffer that `locate_object` has shifted in place. A new
  device carries its written name if and only if no prefix was shifted out or its
  four characters are equal (`AmlDevice.DeviceNameIff`, `AmlDevice.GarbledExample`).
  Without a prefix it is found again under its name if and only if the name's scope
  leads down from where it is defined (`AmlDevice.DeviceFoundIff`), which it does not for
  `_SB_.ABCD` in `_GPE` (`AmlDevice.NotFoundExample`), and with one if and only if the
  name has one segment of four equal characters and the prefix leads to the root
  (`AmlDevice.PrefixedFoundIff`).
- `locate_object` answers the root for every name of one character, so `Scope (^)` opens
  the parent if and only if that is the root (`AmlDevice.LoneCaretIff`, `AmlDevice.LoneCaretExample`).
- `populate_package` reads as many elements as the package says and goes on behind the
  last, without a look at the package length, and stops at an assertion for a name with
  `^`. A data object is read back if and only if every package says its number of
  elements, modulo 256, and every name in it can be made absolute
  (`AmlData.DataReadsIff`); `AmlData.CountTooSmall` is a package that fails.
- `is_free` looks for a mark that `map_page` sets, a bit otherwise unused, and
  `map_page` for the present bit. `map_contiguous_pages` meets a mapped page if and only
  if the region it chose holds one without the mark, which only the boot loader's tables
  can have (`Paging.PageTables.MapContiguous`, `PageModel.BlindExample`).
- `realloc` does not look at what malloc gave. It copies to address 0 exactly when
  nothing fits and the page hook fails (`Liballoc.Heap.Realloc`), which in the kernel
  never is so, because the page hook panics first (`MemoryStack.KreallocKeeps`).
- The 16-bit-limb branch of `fnv_64a_str`, which is not compiled where long long has 64
  bits, multiplies before it exclusive-ors. One round is that of FNV-1a if and only if
  the byte is 0 (`Fnv.LimbRoundIff`), so strings of one character always hash differently
  (`Fnv.OneCharacterDiffers`); for longer ones `Fnv.LimbHashIff` says when the hashes
  agree.

Harmless is that `ALIGN_UP` in `get_free_region` discards its result: the search steps
from the start as given, and whole pages are what it tests.

## What the models take from outside

- `base` is the answer of the page hook, 0 for failure; `junk` is the stale word
  that `split_tag` leaves in the size field of a new tag.
- `room` and `copyRoom` say whether an allocation inside the hash map succeeds.
- `fits` (ghost) names a place where a page search can end; without one the source
  searches forever.
- `io` gives what reading a field from the hardware returns.
- `frames` says whether growth of the page list finds the frames it needs; in
  `KernelHeap` the frame allocator decides that.
- Page tables form a tree of four levels without large pages, in which an entry is
  present just when it has an address.
- Request sizes are below 2^31, as `liballoc`'s arithmetic demands. Frees and
  reallocs are of live allocations.
- Memory-map entries are page multiples below 2^52 that do not overlap, and an
  entry at address 0 is not empty.
- A table in memory is a finite byte sequence, and reading beyond it is a fault.
- The hash map's load factor of 0.75 is compared exactly, as 4 * count >= 3 * capacity.

## Model

| member | source | states |
|---|---|---|
| `HeapTheorems.EveryRun` | lethe-kernel/memory/liballoc.c:273-559 | Whatever calls of malloc, free and realloc are made from the empty heap on, as long as the caller frees and reallocs live allocations and the page hook gives pages of its own: every state is intact (SoundIsIntact) |
| `HeapTheorems.SoundIsIntact` | lethe-kernel/memory/liballoc.c:273-559 | A state with the invariant is intact: every block is tiled exactly to its pages, no live payload overlaps another tag, every free list holds exactly the free tags of its index, and a block with nothing live is one tag again |
| `HeapTheorems.RunKeeps` | lethe-kernel/memory/liballoc.c:273-559 | Every run of malloc, free and realloc keeps the heap invariant, with nothing asked of the states in between but the caller's part |
| `HeapTheorems.BlockTiling` | lethe-kernel/memory/liballoc.c:197-271 | The split chain of a block starts at the block, each tag ends where the next begins and is pointed back to, the sizes sum to pages * 4096, and the chain holds every tag of the block and no other |
| `HeapTheorems.PayloadsApart` | lethe-kernel/memory/liballoc.c:273-518 | A live payload with its tag overlaps no other tag, used or free, in any block |
| `HeapTheorems.IdleBlockIsWhole` | lethe-kernel/memory/liballoc.c:440-469 | When no payload of a block is live, the block is again one free tag of its original size |
| `HeapTheorems.FreeListExact` | lethe-kernel/memory/liballoc.c:134-167 | Free list i holds exactly the free tags with index i, and each belongs to that size class |
| `HeapTheorems.FreeListLinked` | lethe-kernel/memory/liballoc.c:134-167 | Each free list is acyclic, starts at its head and is linked backwards correctly from end to end |
| `HeapTheorems.StandbyExact` | lethe-kernel/memory/liballoc.c:321-337 | l_completePages[i] is the number of unsplit tags on list i and never exceeds 5 |
| `HeapTheorems.ChooseComplete` | lethe-kernel/memory/liballoc.c:296-319 | malloc turns to the page hook only when no free tag of the class fits |
| `HeapTheorems.StepKeeps` | lethe-kernel/memory/liballoc.c:273-559 | One malloc, free or realloc keeps the whole heap invariant |
| `HeapSpec.MallocKeeps` | lethe-kernel/memory/liballoc.c:273-410 | malloc fails just when nothing fits and the page hook fails; otherwise it adds exactly one live allocation of the requested size, changes no other, and records the pages it obtained |
| `HeapSpec.FreeKeeps` | lethe-kernel/memory/liballoc.c:412-518 | free ends exactly that allocation, keeps the invariant, and gives pages back only as a whole block with the page count it was obtained with |
| `HeapSpec.SettleKeeps` | lethe-kernel/memory/liballoc.c:471-504 | A merged tag goes back to the page hook if and only if it is a whole block and 5 blocks of its class are on standby; otherwise it goes onto its list; either way the invariant is restored and exactly that allocation has ended |
| `HeapSpec.MeltedLeftKeeps` | lethe-kernel/memory/liballoc.c:440-456 | Melting into a free left neighbour leaves no free tag on the left and the same live allocations |
| `HeapSpec.MeltedRightKeeps` | lethe-kernel/memory/liballoc.c:457-469 | Absorbing a free right neighbour leaves the tag alone among free tags and the same live allocations |
| `HeapSpec.SplitTagKeeps` | lethe-kernel/memory/liballoc.c:197-222 | Splitting the rest off a used tag files a free tag and keeps the invariant and all live allocations |
| `HeapOps.MeltLeftKeeps` | lethe-kernel/memory/liballoc.c:169-179 | melt_left keeps chains, lists, counts and tags around the merged hole |
| `HeapOps.AbsorbRightKeeps` | lethe-kernel/memory/liballoc.c:181-193 | absorb_right keeps chains, lists, counts and tags around the merged hole |
| `HeapOps.CutKeeps` | lethe-kernel/memory/liballoc.c:197-216 | Cutting a tag in two keeps chains, lists and counts; only the new tag is still to be filed |
| `HeapOps.FileWholeKeeps` | lethe-kernel/memory/liballoc.c:471-504 | Filing an unsplit tag and counting it restores the full invariant |
| `HeapModel.InsertTagKeeps` | lethe-kernel/memory/liballoc.c:134-155 | insert_tag keeps every list acyclic and back-linked and changes nothing but list fields |
| `HeapModel.RemoveTagKeeps` | lethe-kernel/memory/liballoc.c:157-167 | remove_tag keeps every list acyclic and back-linked and takes out exactly that tag |
| `HeapModel.JoinKeepsChain` | lethe-kernel/memory/liballoc.c:169-193 | Joining two neighbours keeps every block tiled |
| `HeapModel.CutKeepsChain` | lethe-kernel/memory/liballoc.c:197-216 | Cutting a tag keeps every block tiled |
| `HeapModel.AddBlockKeeps` | lethe-kernel/memory/liballoc.c:226-271 | A new block from the page hook keeps chains and lists |
| `HeapModel.ExpBounds` | lethe-kernel/memory/liballoc.c:39-67 | From the quantum up, getexp gives the exponent e with 2^e <= size < 2^(e+1) |
| `Liballoc.GetExp` | lethe-kernel/memory/liballoc.c:39-67 | The shift loop computes that exponent, and -1 below the quantum |
| `Liballoc.Memcpy` | lethe-kernel/memory/liballoc.c:77-100 | The word-then-byte copy between disjoint regions equals a byte copy and touches nothing else |
| `Liballoc.Heap.InsertTag` | lethe-kernel/memory/liballoc.c:134-155 | The in-place insertion is the specified list insertion, and no payload byte changes |
| `Liballoc.Heap.RemoveTag` | lethe-kernel/memory/liballoc.c:157-167 | The in-place removal is the specified one, and no payload byte changes |
| `Liballoc.Heap.MeltLeft` | lethe-kernel/memory/liballoc.c:169-179 | melt_left as pointer surgery is the specified merge |
| `Liballoc.Heap.AbsorbRight` | lethe-kernel/memory/liballoc.c:181-193 | absorb_right as pointer surgery is the specified merge |
| `Liballoc.Heap.SplitTag` | lethe-kernel/memory/liballoc.c:197-222 | split_tag as pointer surgery is the specified split |
| `Liballoc.Heap.AllocateNewTag` | lethe-kernel/memory/liballoc.c:226-271 | The new block covers size and tag in whole pages, at least 16 |
| `Liballoc.Heap.FindFit` | lethe-kernel/memory/liballoc.c:296-319 | The search loop stops at the first tag of the list that fits |
| `Liballoc.Heap.Malloc` | lethe-kernel/memory/liballoc.c:273-410 | malloc is the specified function of the old heap, and keeps every payload byte |
| `Liballoc.Heap.MeltLefts` | lethe-kernel/memory/liballoc.c:440-456 | The melt loop runs at most once, because no two neighbours are free |
| `Liballoc.Heap.MeltRights` | lethe-kernel/memory/liballoc.c:457-469 | The absorb loop runs at most once, because no two neighbours are free |
| `Liballoc.Heap.Settle` | lethe-kernel/memory/liballoc.c:471-504 | The end of free: pages handed back or the tag filed, as specified |
| `Liballoc.Heap.Free` | lethe-kernel/memory/liballoc.c:412-518 | free is the specified function of the old heap, with the pages it returns |
| `Liballoc.Heap.Realloc` | lethe-kernel/memory/liballoc.c:534-559 | realloc keeps the first min(old, new) bytes, replaces exactly one live allocation and changes no other payload; what goes back to the page hook is nothing or one of the blocks held, with the page count it was obtained with; size 0 frees and NULL allocates; not ok, with the heap as it was, exactly when malloc gives nothing and the copy would go to address 0 |
| `Liballoc.PayloadClear` | lethe-kernel/memory/liballoc.c:273-518 | No byte of a live payload lies in any tag, so writing tags never touches payloads |
| `Liballoc.MeltGuards` | lethe-kernel/memory/liballoc.c:440-469 | The guards of the melt loops read exactly whether the neighbours are free |
| `Frames.FrameAllocator.NextUsable` | lethe-kernel/memory/initial_frame_allocator.c:16-36 | Takes the first usable entry, marks it used, loses no frame, and panics just when none is usable |
| `Frames.FrameAllocator.Init` | lethe-kernel/memory/initial_frame_allocator.c:75-80 | Enters the first usable entry, or panics when there is none |
| `Frames.FrameAllocator.AllocateFrame` | lethe-kernel/memory/initial_frame_allocator.c:38-73 | Over every run the frames are distinct, page-aligned, nonzero and were usable at boot; it panics only when every such frame but frame 0 is given out, and its recursion ends because usable entries decrease |
| `Frames.EnterKeeps` | lethe-kernel/memory/initial_frame_allocator.c:16-36 | Entering an entry moves its frames to the current span and changes no frame that is left |
| `Frames.BumpKeeps` | lethe-kernel/memory/initial_frame_allocator.c:38-73 | Bumping the span removes exactly its first frame |
| `PageModel.TranslateIsMapping` | lethe-kernel/memory/paging.c:15-75 | Walking the four tables agrees with the abstract map from 36-bit page number to frame for every address |
| `PageModel.SetLeafKeeps` | lethe-kernel/memory/paging.c:126-199 | Writing the leaf entry of a page keeps the tables a tree, changes the mapping at that page alone, and leaves that page marked or unmapped |
| `PageModel.HangKeeps` | lethe-kernel/memory/paging.c:115-124 | Hanging a fresh table under an empty entry keeps the tree, the whole mapping and all marks |
| `PageModel.SamePage` | lethe-kernel/memory/paging.c:126-166 | Two addresses have the same four indices just when they have the same page number |
| `PageModel.SameWay` | lethe-kernel/memory/paging.c:15-75 | Two walks that meet in one table took the same way down, so no table is shared |
| `PageModel.MarkIsUse` | lethe-kernel/memory/paging.c:93-113 | What is_free asks of an entry is whether the page is mapped and marked |
| `PageModel.BlindExample` | lethe-kernel/memory/paging.c:93-113 | Four tables in which page 0 is mapped without the mark |
| `Paging.PageTables.VirtualToPhysical` | lethe-kernel/memory/paging.c:15-75 | Translates by the mapping, 0 for an unmapped page |
| `Paging.PageTables.GetEntry` | lethe-kernel/memory/paging.c:93-111 | Gives the leaf entry of a mapped page and a zero entry otherwise; its unused bit is 0 just when the page is unmapped or mapped without the mark |
| `Paging.PageTables.IsFree` | lethe-kernel/memory/paging.c:113-113 | True just when the page is unmapped or mapped without the mark, as the boot loader may leave it |
| `Paging.PageTables.AllocateEntry` | lethe-kernel/memory/paging.c:115-124 | Hangs a fresh zeroed table from the frame allocator without changing the mapping |
| `Paging.PageTables.MapPage` | lethe-kernel/memory/paging.c:126-166 | Maps exactly that page to that frame, refuses a mapped page, changes no other page, marks what it maps, keeps the tables a tree and its frames disjoint from those still to be given out |
| `Paging.PageTables.UnmapPage` | lethe-kernel/memory/paging.c:168-199 | Removes exactly that page from the mapping, marked or not |
| `Paging.PageTables.GetFreeRegion` | lethe-kernel/memory/paging.c:201-225 | Returns the least page step at or after the start whose pages all look free |
| `Paging.PageTables.MapRun` | lethe-kernel/memory/paging.c:227-244 | Maps page after page up to the first that is mapped already, or until the last frame is gone; what is mapped by then is exactly the pages before it |
| `Paging.SkipLosesNothing` | lethe-kernel/memory/paging.c:201-225 | Jumping past a used page skips no start that would do |
| `Paging.PageTables.MapContiguous` | lethe-kernel/memory/paging.c:227-244 | Unless the last frame is gone, it meets the already-mapped panic if and only if the region it chose holds a page that is mapped without the mark, which never is so when every mapped page is marked; otherwise page i of the region is afterwards frame i of the physical range and no other page has changed |
| `Paging.BlindRegion` | lethe-kernel/memory/paging.c:201-244 | Over such tables the region of page 0 looks free and is not |
| `Paging.PlaceMeans` | lethe-kernel/memory/paging.c:227-244 | Placing pages one after the other maps page i to frame first + i and leaves all pages outside the run |
| `Paging.PageTables.MapNearest` | lethe-kernel/memory/paging.c:246-256 | Maps the first unmapped page step from the start on, and only that page, unless the last frame is gone |
| `RegionModel.LendConservesIff` | lethe-kernel/memory/list_allocator.c:85-107 | A loan conserves every address if and only if it splits nothing or splits into equal halves |
| `RegionModel.AllocSafeIff` | lethe-kernel/memory/list_allocator.c:85-107 | An allocation keeps all regions apart and conserves memory if and only if its split is even; it always finds a region |
| `RegionModel.RunSafeIff` | lethe-kernel/memory/list_allocator.c:19-107 | A run of requests and returns is safe in every state if and only if all its splits are even |
| `RegionModel.SixteenIsEven` | lethe-kernel/memory/list_allocator.c:85-107 | In runs of 16-page requests region sizes stay 16 or 32, so every split is even |
| `RegionModel.MinimumRunsAreSafe` | lethe-kernel/memory/alloc.c:39-53 | From the boot region, all runs of 16-page requests are safe as the code is written |
| `RegionModel.UnevenSplitOverlaps` | lethe-kernel/memory/list_allocator.c:85-107 | A 20-page request at boot makes the remainder overlap the loan |
| `RegionModel.GrowKeeps` | lethe-kernel/memory/list_allocator.c:19-34 | Growth adds exactly the new pages and keeps all regions apart |
| `RegionModel.GiveBackKeeps` | lethe-kernel/memory/list_allocator.c:36-47 | Giving a region back keeps all regions apart and conserves memory |
| `Regions.RegionList.AddRegion` | lethe-kernel/memory/list_allocator.c:36-47 | Writes a node at the start of the region and makes it the head |
| `Regions.RegionList.GetValidRegion` | lethe-kernel/memory/list_allocator.c:65-83 | Unlinks exactly the first region with room, and returns NULL just when there is none |
| `Regions.RegionList.MapHeap` | lethe-kernel/memory/list_allocator.c:19-34 | Maps a frame for every page of the range, never a page twice, unless the last frame is gone |
| `Regions.RegionList.IncreaseHeap` | lethe-kernel/memory/list_allocator.c:19-34 | Unless the last frame is gone, growing is the specified growth, maps every new page once, and keeps everything behind the heap end unmapped |
| `Regions.RegionList.TakeGrown` | lethe-kernel/memory/list_allocator.c:87-93 | After growth the search succeeds, so the abort is unreachable |
| `Regions.RegionList.ListAlloc` | lethe-kernel/memory/list_allocator.c:85-107 | It panics only when no region has room and growth has taken the last frame; otherwise the list afterwards is the specified allocation for every request, and the invariant holds when the split is even |
| `Regions.RegionList.GiveBackRegion` | lethe-kernel/memory/alloc.c:29-33 | liballoc_free returns a lent region to the front of the list |
| `Regions.RegionList.Setup` | lethe-kernel/memory/alloc.c:39-53 | Unless the last frame is gone, establishes the heap-end invariant: one region of 32 pages, all mapped, nothing mapped beyond |
| `MemoryStack.HookDelivers` | lethe-kernel/memory/alloc.c:29-35 | For a page request that splits evenly, list_alloc answers malloc with a block clear of all other blocks |
| `MemoryStack.KmallocKeeps` | lethe-kernel/memory/alloc.c:19-35 | With `frames` as the answer whether growth finds its frames: kmalloc panics if and only if no free tag fits, no free region has room and growth finds none; otherwise it keeps heap and page list sound and in agreement and adds exactly one live allocation |
| `MemoryStack.KfreeKeeps` | lethe-kernel/memory/alloc.c:21-33 | kfree ends exactly that allocation; what goes back to the page list is one lent region, as large as it was lent |
| `MemoryStack.KreallocKeeps` | lethe-kernel/memory/alloc.c:23-35 | krealloc panics just when kmalloc does, so it never copies to address 0; otherwise it replaces exactly one live allocation |
| `MemoryStack.KernelRuns` | lethe-kernel/memory/alloc.c:19-53 | From boot on, every run of kmalloc, kfree and krealloc whose page requests split evenly keeps all live payloads and all page regions apart, and heap and page list in agreement |
| `MemoryStack.SmallKernelRuns` | lethe-kernel/memory/alloc.c:19-53 | Runs of requests that one minimum block holds need no such condition |
| `KernelHeap.Kernel.Kmalloc` | lethe-kernel/memory/alloc.c:19-35 | liballoc over list_alloc over the page tables and the frame allocator, in place, does what MemoryStack.Kmalloc says, and growth finds no frames only when the frame allocator has none left |
| `KernelHeap.Kernel.Kfree` | lethe-kernel/memory/alloc.c:21-33 | kfree in place does what MemoryStack.Kfree says: the block liballoc gives back is the region list_alloc lent |
| `KernelHeap.KmallocIs` | lethe-kernel/memory/alloc.c:19-35 | With the block list_alloc answers, malloc has what it needs, and heap and page list are what MemoryStack.Kmalloc says |
| `Fnv.Fnv64aBuf` | lethe-utils/hash_64a.c:112-131 | The loop computes FNV-1a |
| `Fnv.Fnv64aStr` | lethe-utils/hash_64a.c:147-171 | With the shift-add form the loop computes the same hash |
| `Fnv.PrimeInvertible` | lethe-utils/hash_64a.c:112-131 | Multiplication by the prime modulo 2^64 is undone by multiplying with its inverse |
| `Fnv.OneByteNeverCollides` | lethe-utils/hash_64a.c:112-131 | Buffers of equal length that differ in exactly one byte always have different hashes |
| `Fnv.ShiftAddIsMultiply` | lethe-utils/hash_64a.c:165-166 | The shift-add step is multiplication by the prime modulo 2^64 |
| `Fnv.LimbMultiplyIsMultiply` | lethe-utils/hash_64a.c:204-217 | The base-2^16 step is multiplication by the prime modulo 2^64 whatever the unmasked top limb holds |
| `Fnv.LimbHash` | lethe-utils/hash_64a.c:172-231 | The limb branch computes the multiply-then-xor hash through every iteration |
| `Fnv.LimbRoundIff` | lethe-utils/hash_64a.c:172-231 | On every state the round of the limb branch is that of FNV-1a if and only if the byte is 0, which no character of a string is |
| `Fnv.OneCharacterDiffers` | lethe-utils/hash_64a.c:147-231 | The two branches hash every string of one character differently |
| `Fnv.LimbHashShifted` | lethe-utils/hash_64a.c:147-231 | For every string, the limb hash times the prime is the FNV-1a hash from a start times the prime |
| `Fnv.LimbHashIff` | lethe-utils/hash_64a.c:147-231 | The two branches agree on a string if and only if multiplying the start of FNV-1a by the prime and multiplying its hash come to the same |
| `HashTable.Probe` | lethe-utils/hashmap.c:41-60 | The probe loop ends, at the slot of the key or at the empty slot that shows it absent |
| `HashTable.SearchEnds` | lethe-utils/hashmap.c:41-120 | The load bound leaves an empty slot, so no search passes all slots |
| `HashTable.EmptyMeansAbsent` | lethe-utils/hashmap.c:106-120 | An empty slot on the probe path shows that the key is not in the map |
| `HashTable.InsertHolds` | lethe-utils/hashmap.c:41-69 | Filling that slot adds exactly one binding to the map the table stands for |
| `HashTable.SetEntry` | lethe-utils/hashmap.c:41-69 | Sets exactly one binding, reports whether it is new, and changes nothing when the key copy fails |
| `HashTable.Rehash` | lethe-utils/hashmap.c:71-89 | Re-entering every entry into a larger table keeps the map |
| `HashTable.HashMap.constructor` | lethe-utils/hashmap.c:91-104 | A new map is empty |
| `HashTable.HashMap.Get` | lethe-utils/hashmap.c:106-120 | Returns the value last set, or NULL if and only if the key is absent |
| `HashTable.HashMap.Expand` | lethe-utils/hashmap.c:71-89 | Doubles the table and keeps map and count; fails just on overflow or lack of memory, without effect |
| `HashTable.HashMap.Set` | lethe-utils/hashmap.c:122-130 | Sets exactly that binding, keeps count equal to the size and the load bound; on failure the map is as it was, with the exact condition of failure |
| `HashTable.HashMap.Next` | lethe-utils/hashmap.c:140-156 | Yields the next taken slot and skips only empty ones |
| `HashTable.HashMap.Foreach` | lethe-utils/hashmap.c:132-166 | Iteration yields every binding exactly once |
| `AmlSyntax.LengthRoundTrip` | lethe-aml/aml/helpers.c:220-254 | Decoding an encoded package length gives the length and stops right behind it (ACPI 20.2.4) |
| `AmlSyntax.LengthIsOr` | lethe-aml/aml/helpers.c:220-254 | For every lead byte, also malformed ones, the decoded length is what or-ing the shifted bytes gives |
| `AmlSyntax.NameRoundTrip` | lethe-aml/aml/name.c:59-99 | Decoding an encoded name with at most one prefix character gives its characters and stops right behind it (ACPI 20.2.2) |
| `AmlTerms.WordRoundTrip` | lethe-aml/aml/helpers.c:307-324 | Little-endian numbers read back |
| `AmlTerms.ExprRoundTrip` | lethe-aml/aml/helpers.c:290-452 | For every expression of constants, names, LNot, LEqual, LAnd, LLess and LGreater, evaluating its encoding followed by any bytes gives its value and stops exactly behind it |
| `AmlData.DataReadsIff` | lethe-aml/aml/helpers.c:623-768 | Decoding an encoded data object, with packages in packages, gives its value and stops right behind it if and only if every package says its number of elements (modulo 256) and every name among the elements can be made absolute; when only the numbers are right, so far as they have a value, the program stops (ACPI 20.2.3) |
| `AmlData.DataReads` | lethe-aml/aml/helpers.c:623-768 | A data object that is not exact never reads as its value, wherever the reader stops |
| `AmlData.NotAName` | lethe-aml/aml/helpers.c:623-650 | An element that is a data object is never taken for a name |
| `AmlData.CountTooSmall` | lethe-aml/aml/helpers.c:623-650 | A package of two elements that says it has one is left one byte early |
| `AmlGrammar.TermStands` | lethe-aml/aml/defs.c:38-243 | An encoded term puts each of its parts where the handler will read it |
| `AmlNames.NearestIsNearest` | lethe-aml/aml/helpers.c:27-45 | A bare segment finds the binding of the nearest enclosing namespace, and nothing just when no enclosing one binds it (ACPI 5.3) |
| `AmlNames.PathLeadsThere` | lethe-aml/aml/name.c:14-57 | Following the names on the way up to the root leads down to the namespace |
| `AmlNames.ResolveRoundTrip` | lethe-aml/aml/name.c:14-57 | Looking up the resolved name of a key, from any scope, finds exactly the namespace's own binding of that key |
| `AmlLookup.Stage3` | lethe-aml/aml/helpers.c:27-45 | The upward loop finds the nearest binding |
| `AmlLookup.FollowPath` | lethe-aml/aml/helpers.c:48-71 | The downward loop follows the segments, NULL for an empty or broken path |
| `AmlLookup.LocateObject` | lethe-aml/aml/helpers.c:103-154 | Finds what the lookup rules say, and shifts a prefix character out of the caller's buffer |
| `AmlLookup.CheckName` | lethe-aml/aml/helpers.c:777-804 | Accepts exactly upper-case letters, digits and underscores behind an optional prefix |
| `AmlLookup.MakeAbsolute` | lethe-aml/aml/name.c:14-57 | Counting levels and filling the buffer from its end gives the absolute name |
| `AmlDevice.DeviceNameIff` | lethe-aml/aml/defs.c:203-228 | A new device carries its written name if and only if no prefix was shifted out or its four characters are equal |
| `AmlDevice.ShiftedParent` | lethe-aml/aml/defs.c:203-228 | A new device under a prefixed name hangs under the root for one segment and nowhere for more |
| `AmlDevice.GarbledExample` | lethe-aml/aml/defs.c:203-228 | Device (\ABCD), in the tree the parser starts with, makes a namespace called BCDD |
| `AmlDevice.DeviceFoundIff` | lethe-aml/aml/defs.c:203-228 | A new device is found again under an unprefixed name if and only if the name's scope leads down from where it was defined |
| `AmlDevice.NotFoundExample` | lethe-aml/aml/defs.c:203-228 | Device (_SB_.ABCD) in _GPE, in the tree the parser starts with, is made in _SB_ and is not found again under that name |
| `AmlDevice.PrefixedFoundIff` | lethe-aml/aml/defs.c:203-228 | A new device is found again under a prefixed name if and only if that is a prefix and one segment of four equal characters and the prefix leads to the root |
| `AmlDevice.LoneCaretIff` | lethe-aml/aml/helpers.c:103-154 | ^ alone finds the root from everywhere, which is the parent if and only if the namespace hangs there |
| `AmlDevice.LoneCaretExample` | lethe-aml/aml/helpers.c:103-154 | In a new Device (ABCD) of _SB_, ^ finds the root, not _SB_ |
| `AmlParse.CreateKeeps` | lethe-aml/aml/namespace.c:16-33 | Creating a namespace keeps the tree invariant and every cursor |
| `AmlParse.FirstSpacesFound` | lethe-aml/aml/namespace.c:98-108 | The predefined namespaces hang under the root by their names |
| `AmlParse.ParseNext` | lethe-aml/aml/helpers.c:454-539 | On any bytes it ends; it changes no cursor but its own, which moves forward, and keeps the tree invariant |
| `AmlParse.ParseTermlist` | lethe-aml/aml/helpers.c:541-547 | On any bytes it ends and leaves every cursor where it was |
| `AmlMeaning.TermParses` | lethe-aml/aml/helpers.c:454-539 | parse_next on the encoding of any Name, Method, OperationRegion, IndexField, Scope, Device, Processor or Alias term, packages among the data, does exactly what the term means, unless that goes astray because a package, where it is read, does not say its number of elements; the meaning of Name, Method and Device uses the same filing functions as the handlers (Bind, FileMethod, DeviceSpace), with the shifted name of a device |
| `AmlMeaning.ListParses` | lethe-aml/aml/helpers.c:541-547 | The term loop on an encoded list does what its terms mean one after the other, unless one of them goes astray |
| `AmlMeaning.ListStops` | lethe-aml/aml/helpers.c:541-547 | The loop stops exactly at the end of such a list |
| `AmlMeaning.TermlistParses` | lethe-aml/aml/helpers.c:541-547 | parse_termlist on an encoded list has exactly its meaning, unless that goes astray, and leaves every cursor where it was |
| `AmlMeaning.NeverAstray` | lethe-aml/aml/helpers.c:454-539 | A term whose packages say their numbers of elements without using a name never goes astray, in whatever namespaces it is read |
| `AmlMeaning.MethodFiled` | lethe-aml/aml/defs.c:38-90 | def_method files exactly the bytes behind the flags as the body |
| `AmlCursor.LocateMoved` | lethe-aml/aml/helpers.c:103-154 | Moving a cursor changes no lookup |
| `AmlCursor.ResolveMoved` | lethe-aml/aml/name.c:14-57 | Nor does it change what a name is resolved to |
| `AmlReader.Reader.constructor` | lethe-aml/aml/namespace.c:98-115 | Creates the root and the five predefined namespaces |
| `AmlReader.Reader.ParseLength` | lethe-aml/aml/helpers.c:220-254 | Reads as specified and leaves the cursor behind the length |
| `AmlReader.Reader.ParseNamestring` | lethe-aml/aml/name.c:59-99 | Reads as specified, with the prefix loop, and leaves the cursor behind the name |
| `AmlReader.Reader.TermArgToInt` | lethe-aml/aml/helpers.c:290-452 | The recursive reader with its moving cursor computes the specified value and position |
| `AmlReader.Reader.ParseDataObject` | lethe-aml/aml/helpers.c:652-765 | Reads the specified data object, packages with their elements included, and leaves the cursor behind it |
| `AmlReader.Reader.PopulatePackage` | lethe-aml/aml/helpers.c:623-650 | The loop, which puts the cursor back for an element that is no name, reads the specified elements, and its recursion with parse_data_object ends on any bytes |
| `AmlReader.Reader.DefName` | lethe-aml/aml/defs.c:92-102 | The handler does what its specification says |
| `AmlReader.Reader.DefOpRegion` | lethe-aml/aml/defs.c:104-119 | The handler does what its specification says |
| `AmlReader.Reader.DefAlias` | lethe-aml/aml/defs.c:230-243 | The handler does what its specification says |
| `AmlReader.Reader.DefSkip` | lethe-aml/aml/defs.c:149-158 | The handler skips the package |
| `AmlReader.Reader.DefMethod` | lethe-aml/aml/defs.c:38-90 | The handler does what its specification says |
| `AmlReader.Reader.DefScope` | lethe-aml/aml/defs.c:160-201 | The handler does what its specification says |
| `AmlReader.Reader.DefDevice` | lethe-aml/aml/defs.c:203-228 | The handler does what its specification says, with the reused name buffer |
| `AmlReader.Reader.ParseNext` | lethe-aml/aml/helpers.c:454-539 | Dispatches as specified |
| `AmlReader.Reader.ParseTermlist` | lethe-aml/aml/helpers.c:541-547 | The loop with the saved and restored cursor is the specified one |
| `AmlReader.Reader.ParseTable` | lethe-aml/aml/defs.c:271-278 | Parses the whole table in the root namespace |
| `PrintfModel.DigitsRead` | lethe-libc/stdio.c:148-175 | The digits in the buffer read back as the value modulo base^48 |
| `PrintfModel.RoomSuffices` | lethe-libc/stdio.c:148-175 | 48 digits are enough for every 64-bit value in every base but 2 |
| `PrintfModel.FieldShape` | lethe-libc/stdio.c:61-204 | A number field is blanks, sign, mark of #, zeros, digits and blanks, with their exact counts, also when # cuts characters off |
| `PrintfFields.FieldReads` | lethe-libc/stdio.c:95-204 | Zeros and digits of a number field read back as the value modulo base^48 when # cuts zeros at most, and as the value modulo base^k for the k digits left otherwise |
| `PrintfFields.FieldReadsIff` | lethe-libc/stdio.c:95-204 | The field of a value that fits in 48 digits reads back as that value if and only if # cuts no more characters than there are zeros on top |
| `PrintfFields.HashLosesDigits` | lethe-libc/stdio.c:118-137 | %#4x of 0x1234 prints 0x34 |
| `PrintfStandard.FieldIffStandard` | lethe-libc/stdio.c:95-204 | Without #, a number field is the one section 7.21.6.1 of ISO C11 prescribes if and only if the value fits in 48 digits, the zeros and the sign fit behind them, and - meets no larger precision; a blank sign that does not fit is made good by a padding space |
| `PrintfStandard.LeftDropsPrecision` | lethe-libc/stdio.c:95-146 | %-.3d of 5 prints 5, where the standard has 005 |
| `PrintfAlternate.AlternateIff` | lethe-libc/stdio.c:95-204 | With #, the field of %o, %x and %X is the one section 7.21.6.1 of ISO C11 prescribes if and only if AltAgrees holds: for hexadecimal lower case, no digit cut off, no larger precision under -, and room for the prefix; for octal the like, and no zeros from a precision; 0 as without #, but for octal 0 of precision 0 |
| `PrintfAlternate.CapitalPrefix` | lethe-libc/stdio.c:118-137 | %#X of 0xA prints 0xA, where the standard has 0XA |
| `PrintfAlternate.OctalZeroTooMany` | lethe-libc/stdio.c:118-137 | %#.3o of 8 prints 0010, where the standard has 010 |
| `PrintfModel.FieldLength` | lethe-libc/stdio.c:61-204 | For width and precision up to 47 without #, a field has length max(width, digits or precision plus sign), with precision ignored under - |
| `PrintfModel.WideZeros` | lethe-libc/stdio.c:95-146 | Beyond that bound it fails: a wider zero-padded field has 48 characters |
| `PrintfModel.DigitsNeeded` | lethe-libc/stdio.c:148-175 | No more digits are made than the value needs |
| `PrintfFormat.DirectiveAccumulates` | lethe-libc/stdio.c:222-323 | A directive is read with its own flags and all that are left over, and otherwise the same |
| `PrintfFormat.ReadAsWrittenIff` | lethe-libc/stdio.c:206-323 | Every directive of a format is read as it would be on its own if and only if each sets all flags that earlier ones left |
| `PrintfFormat.FreshWhenNothingLeftOver` | lethe-libc/stdio.c:206-564 | vprintf prints what this code would print with the flags cleared per directive, when every directive sets what earlier ones left |
| `PrintfFormat.IntegerIffStandard` | lethe-libc/stdio.c:327-455 | Of one directive on its own flags, d, i, u, o, x or X without # prints what ISO C11 prescribes if and only if PrintfStandard.Agrees holds of its flags, width, precision and value |
| `PrintfConform.IntegerIff` | lethe-libc/stdio.c:327-455 | With # and without, such a conversion prints what ISO C11 prescribes for its argument if and only if the conditions above hold and the argument has an absolute value |
| `PrintfConform.PrintsStandard` | lethe-libc/stdio.c:206-564 | vprintf prints the text ISO C11 has for a whole format of d, i, u, o, x, X, c, s and %, when no directive leaves a flag over and every one agrees |
| `PrintfConform.DirectiveIff` | lethe-libc/stdio.c:222-323 | A directive on its own is read as ISO C11 reads it if and only if it takes no negative precision from an argument |
| `PrintfConform.NegativePrecisionExample` | lethe-libc/stdio.c:222-323 | Called with %.*d, -1 and 0, vprintf prints nothing, where the standard has 0 |
| `PrintfFormat.PrecisionSwallowsText` | lethe-libc/stdio.c:483-514 | A left-over precision makes a later %s without one print nothing, whatever the flags |
| `PrintfFormat.TextVanishes` | lethe-libc/stdio.c:206-564 | Called with %.1d%s, 5 and any text, vprintf prints 5 alone; with the flags cleared in between it would print the text as well |
| `Printf.Terminal.PrintReverse` | lethe-libc/stdio.c:61-92 | Prints the buffer backwards, padded to the width, and counts every character |
| `Printf.Terminal.Ntoa` | lethe-libc/stdio.c:95-146 | The buffer loops and branches print the specified field |
| `Printf.Terminal.Digits` | lethe-libc/stdio.c:148-175 | The do-while loop makes exactly the digits, within 48 characters |
| `Printf.Terminal.NtoaLong` | lethe-libc/stdio.c:148-204 | Prints the specified number field |
| `Printf.Terminal.Atoi` | lethe-libc/stdio.c:54-59 | The loop computes NumberAt, which NumberMeans says is the decimal number |
| `PrintfFormat.NumberMeans` | lethe-libc/stdio.c:54-59 | For every string, atoi reads all the digits there are and gives the decimal number they spell modulo 2^32 |
| `Printf.Terminal.Vprintf` | lethe-libc/stdio.c:206-564 | Prints exactly the specified text and returns the number of characters printed modulo 2^32 |
| `RingQueue.FullMeansOne` | lethe-utils/queue.c:12-26 | The test for a full queue holds if and only if there is exactly one entry |
| `RingQueue.NeverTwo` | lethe-utils/queue.c:12-42 | From an empty queue no sequence of calls gets two entries in |
| `RingQueue.Queue.constructor` | lethe-utils/queue.c:44-54 | A new queue is empty |
| `RingQueue.Queue.PushQueue` | lethe-utils/queue.c:12-26 | push_queue appends its entry if and only if there is neither one entry nor nine; it does nothing with one and loses all with nine |
| `RingQueue.Queue.PopQueue` | lethe-utils/queue.c:28-35 | Takes the first entry that is not NULL; the recursion ends |
| `RingQueue.Queue.RotateQueue` | lethe-utils/queue.c:37-42 | Pops and pushes the same entry |
| `Tasks.TwoTasksAlternate` | lethe-kernel/cpu/task.c:81-148 | In every run after the first create_task no switch fails, the same two tasks take turns, and each switch resumes exactly the frame the switch before it suspended |
| `Tasks.LaterTasksStarve` | lethe-kernel/cpu/task.c:132-148 | A task created after the first is never current and never queued |
| `Tasks.FirstCreatePairs` | lethe-kernel/cpu/task.c:132-148 | The first create_task pairs the kernel with the new task |
| `Tasks.SwitchWithoutTask` | lethe-kernel/cpu/task.c:81-88 | Before it, switching finds no task to resume |
| `Tasks.CopyCtx` | lethe-kernel/cpu/task.c:56-79 | All 20 registers are copied |
| `Tasks.Scheduler.constructor` | lethe-kernel/cpu/task.c:38-54 | init_tasks leaves the kernel task current and the queue empty |
| `Tasks.Scheduler.CreateTask` | lethe-kernel/cpu/task.c:132-148 | Adds a task with its own frame and pushes it, as specified |
| `Tasks.Scheduler.SwitchTask` | lethe-kernel/cpu/task.c:81-88 | Saves the interrupted frame, rotates and restores, as specified, with no frame shared |
| `Pci.SearchBus` | lethe-kernel/pci/pci.c:273-314 | The recursive search, with both tests of the count, picks match number skip of the preorder list and returns what is left of the count |
| `Pci.SearchBuses` | lethe-kernel/pci/pci.c:316-341 | One bus after the other with the same count, as on the joined list |
| `Pci.Locate` | lethe-kernel/pci/pci.c:343-360 | Returns match number skip, counted from zero, and NULL if and only if there are no more than skip matches |
| `Pci.FoundIsSelected` | lethe-kernel/pci/pci.c:273-314 | The matches are the matching part of the preorder list of all devices |
| `Pci.FunctionFollowsDevice` | lethe-kernel/pci/pci.c:37-51 | A new function comes right behind its device in the order of the search |
| `Pci.Bus.NewDevice` | lethe-kernel/pci/pci.c:22-35 | A new device is searched first |
| `Pci.Bus.NewFunction` | lethe-kernel/pci/pci.c:37-51 | A new function is searched right behind its device |
| `Pci.AddressesDiffer` | lethe-kernel/pci/pci.c:86-100 | Different functions and registers have different configuration addresses |

## Left out

- Port I/O, CR3 and TLB, interrupts, AHCI, the framebuffer, the shell and all assembly: device effects without a deep property.
- Locks: `liballoc_lock` and `liballoc_unlock` do nothing in this kernel.
- calloc, double free and foreign pointers: preconditions or easy members.
- Large pages, pages mapped to frame 0, page-table entry bits other than present, the unused bit and the address, and `init_page_table`.
- AmlReader.Reader.ParseNext: If/Else, Mutex, Field and CreateWordField terms give no result; their resume points or names are not what the format means.
- AmlMeaning.TermParses: of a term that goes astray nothing is said but what AmlData.DataReadsIff says of its data. A Name term with a package needs 3 bytes of memory behind it, since an element is first tried as a name of 4 bytes.
- AmlMeaning.ListParses: the same.
- AmlMeaning.ListStops: the same.
- AmlMeaning.TermlistParses: the same.
- KernelHeap.Kernel.Kmalloc: the free pages that hold list nodes and the tags of liballoc are two memories here; that they do not overlap is MemoryStack.KernelRuns. The address space above the heap end must have room for the growth.
- HeapTheorems.EveryRun: a realloc for which malloc gives nothing ends the run, as its copy goes to address 0; Liballoc.Heap.Realloc says when.
- `read_mem`, `read_io` and the execution of methods: hardware reads are the parameter `io`.
- AmlParse.ParseNext: states cursor and tree discipline on any bytes; what it does on well-formed ones is stated by AmlMeaning.TermParses.
- AmlParse.ParseTermlist: the same, with AmlMeaning.TermlistParses.
- PrintfFormat.FreshWhenNothingLeftOver: one direction only, because two directives can print the same text with different flags.
- PrintfConform.PrintsStandard: one direction only; `%p` is implementation-defined and `%b` not in the standard, and neither is compared with it.
- Printf.Terminal.Vprintf: the least int and long, which have no absolute value, and formats that end inside a directive give no result.
- The resizable queue, `remove_task`, `signal_idle` and task exit: they read empty slots or size the buffer in bytes.
- PCI enumeration and register access; 32-bit wrap-around of `skip` and of device counts cannot occur.
- `lethe-libc/string.c`, `hash_32a.c`, `linked_list.c`, ELF symbols, ACPI table scans and the boot loaders: single-loop helpers or outside the kernel's core.
