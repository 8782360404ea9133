# treeos kernel, verified

A Dafny model of the core of treeos, an i386 kernel, with proofs about it. `dafny verify dfyconfig.toml` checks all of it.

| file | what it models |
|---|---|
| `machine.dfy` | words, pages, and where the kernel heap is |
| `memory.dfy`, `headers.dfy` | a flat 32-bit byte memory, and the allocator's two header structures in it |
| `layout.dfy`, `search.dfy` | what the allocator's lists stand for; where a request goes, and what a free leaves behind |
| `liballoc.dfy` | `kmalloc`, `kfree`, `krealloc`, `kcalloc` over the bytes, each proved to do what `search.dfy` says |
| `history.dfy` | whole histories of allocator calls against the caller's own books |
| `bitmap.dfy` | the word-array bitmap |
| `mmu.dfy` | physical memory as words, the page walk of section 4.3 of the Intel SDM volume 3A, and the recursive self-map |
| `pages.dfy`, `paging.dfy` | `page_alloc`, `page_free`, `page_map`, `page_unmap`, `paging_structure_alloc` through the self-map, and what they mean for translation |
| `frames.dfy`, `kernelheap.dfy` | who owns which frame; `liballoc_alloc` and `liballoc_free` |
| `kernel.dfy` | the allocator and the kernel heap under it as one |
| `boot.dfy`, `console.dfy`, `modules.dfy` | `pmm_init`, `tty_remap` and `module_table_init` |
| `startup.dfy` | the three of them in the order of `kmain` |
| `accounts.dfy`, `service.dfy` | what any sequence of allocator calls comes to; the same on the running kernel |
| `separation.dfy`, `physical.dfy` | heap and page tables in one physical memory; the allocator's calls there |
| `scheduler.dfy` | the process queue, the clock tick, and the two stages of a context switch |
| `interrupts.dfy` | the IRQ mask, the two 8259 chips, and critical regions |
| `atomic.dfy`, `callers.dfy`, `exclusion.dfy` | what the regions are for; the scheduler's calls in them, store by store; several processes with the mask in two places |
| `format.dfy` | `vsprintf` and its number conversions |

**The heap.** `Liballoc` keeps the memory as bytes and, as a ghost, the layout the bytes stand for: a list of majors, each with its minors. `Linked` says that both levels of doubly linked lists in memory are exactly that layout, that it is in order (minors inside their major, disjoint, in address order; majors one after the other), and that the usage fields and both totals are exact. Every call is proved to keep this and to end in the one state that `AfterMalloc`, `AfterFree` or `Resized` names; about these are the properties that span calls: pages are asked for exactly when no gap holds the request, although the search starts at the best bet, restarts from the root, and rejects majors by their usage alone; payloads meet no header and no other payload; free undoes malloc; and over any history the live payloads are exactly those in the caller's books.

**Paging.** The pager reads and writes the tables only at virtual addresses, through the walk. The windows at 0xFFFFF000 and 0xFFC00000 are proved to reach the directory and the tables; `page_map` and `paging_structure_alloc` call each other, and terminate. On top stands a ledger of frames: every page handed out is mapped to its own frame, and a frame is in use exactly if it is in the ledger or was reserved at boot. `pmm_init` establishes this, and the kernel heap, `tty_remap` and `module_table_init` keep it. `KernelMemory` joins the allocator to the heap: the pages of its majors are exactly the pages handed out, so that every live payload byte is mapped and no two of them are the same byte of physical memory. `Start` runs the memory part of `kmain` from the state the boot code leaves; it asks that the memory map not offer the video memory, that the modules end below the console, and that the placement heap have room for the page tables. `Serve` goes on from there through any sequence of calls to the allocator and of stores by the callers: it takes the one course that `CourseOf` computes from the layout and the number of free frames, stops exactly at a call that is not proper or for which memory is short, and until then what is live is what the callers have, every live byte is what was last written to it, modules and console stay mapped, and no frame of the kernel, a module, or frame 0 is handed out.

The allocator's bytes are kept in a flat memory of their own. `Separation` justifies that: with both in the same physical memory, over every run of heap stores and of pages acquired and given back, every translation is the one there would be without the stores, and every heap byte the processor loads is the one in the flat memory. `Physical` shows each call of the allocator to be such a run.

**Scheduler, interrupts, formatter.** The scheduler's methods work on linked process objects and are proved against a state on values, over whose runs the properties are stated. The IRQ mask is proved equal to the chips' mask registers at all times, and nested critical regions to leave no trace. Whatever the timer interrupts, a region of one process takes effect as a single action, so that the calls the processes make, store by store, amount to a run of the scheduler (`Callers`). That a region also keeps other processes out is not always so: on the way out of one the chip is unmasked before `irq_mask` says so, and a tick between the two that takes the processor away lets another process take a region for locked that is not. `Exclusion` shows that this, and nothing else, breaks it. `vsprintf` is proved against a renderer, which decoders invert.

Where the code differs from its comments the model follows the code, and says when the comment holds: "all of memory in use by default" (`Boot.AllInUseIff`), and the length of a region in the memory map, which is read from its address, with an inclusive end (`Boot.FreesOwnIff`, `Boot.OneFrameTooMany`, `Boot.RegionMostlyKept`); sizes are 32-bit sums (`Search.FreshHoldsIff`); and regions exclude one another (`Exclusion.ExclusionIff`).

## Model

| member | source | states |
|---|---|---|
| Search.GrowsOnlyWhenFull | klibc/liballoc/liballoc.c:338-593 | kmalloc acquires another major exactly when no gap of any major holds the request and its header, wherever it started |
| Layout.QuickRejectIsSound | klibc/liballoc/liballoc.c:366-399 | CASE 1: a major whose usage leaves too little has no gap that is large enough |
| Layout.FreeIsGaps | klibc/liballoc/liballoc.c:355-356 | size minus usage is the total length of the gaps |
| Search.SeekPasses | klibc/liballoc/liballoc.c:378-397 | moving past a major without room, to the next or once back to the root, does not change where the search ends |
| Search.FreshHasRoom | klibc/liballoc/liballoc.c:215-228 | a new major holds the request it was acquired for, and has no page too many beyond the minimum of 16 |
| Search.CanGrowIff | kernel/kernel/vmm/kernel_heap.c:73-107 | the heap can grow if and only if every byte of the new major is in the range kept for it |
| Search.FreshHoldsIff | klibc/liballoc/liballoc.c:210-247 | in 32-bit arithmetic the size noted for a new major holds the request if and only if that is at most 0xFFFFEFB0; what is compared and asked for is right if and only if it is at most 0xFFFFFFAF; between the two the pages are more than the heap can have |
| Search.WrappedRequests | klibc/liballoc/liballoc.c:275-304 | beyond, a request for all but 16 bytes of the address space counts as 40 bytes, and one for all but 32 as size 0 |
| Search.MallocKeepsGood | klibc/liballoc/liballoc.c:266-609 | every granted request leaves minors and majors disjoint and in order, no major empty, and the best bet NULL or listed |
| Search.FreeKeepsGood | klibc/liballoc/liballoc.c:694-731 | so does freeing any live minor; a major of which it was the last is afterwards neither listed nor the best bet |
| Search.ResizeKeepsGood | klibc/liballoc/liballoc.c:833-843 | so does a krealloc in place |
| Search.GoesToFirstFit | klibc/liballoc/liballoc.c:338-561 | a request some gap holds goes to the first major with such a gap, from the best bet on if that has more free space than needed and otherwise from the root, and there into the first such gap |
| Search.MallocLeavesBest | klibc/liballoc/liballoc.c:345-365 | the best bet kmalloc leaves is the old one or one with more free space; no major it has looked at had more, and it has looked at all if it went on to acquire one |
| Search.FreeLeavesBest | klibc/liballoc/liballoc.c:722-731 | after a kfree whose major stays listed, the best bet is the old one, or that major if it has more free space: neither has more than it |
| Search.MallocKeepsMinors | klibc/liballoc/liballoc.c:404-561 | after kmalloc every minor there was is unchanged, and the returned pointer belongs to a minor that is none of them |
| Layout.CarveKeepsOrder | klibc/liballoc/liballoc.c:438-561 | placing a request in a gap that holds it keeps the minors disjoint and in address order |
| Layout.UnlinkKeepsOrder | klibc/liballoc/liballoc.c:696-708 | so does unlinking any minor |
| Layout.UsageOfCarve | klibc/liballoc/liballoc.c:415-418 | placing adds header and padded size to the usage |
| Layout.UsageOfUnlink | klibc/liballoc/liballoc.c:694-700 | freeing takes away what placing added |
| Layout.TotalsOfPlace | klibc/liballoc/liballoc.c:415-418 | l_inuse stays the sum over the live minors when one is placed |
| Layout.TotalsOfRelease | klibc/liballoc/liballoc.c:694-721 | both totals stay the sums over live minors and majors when one is freed and its major possibly released |
| Layout.ReleaseUndoesPlace | klibc/liballoc/liballoc.c:694-708 | freeing what was just placed in a listed major restores all majors and minors |
| Layout.ReleaseUndoesGrowth | klibc/liballoc/liballoc.c:711-721 | freeing what was just placed in a new major removes it again |
| History.FreeUndoesMalloc | klibc/liballoc/liballoc.c:619-742 | for every good state and request, kmalloc then kfree of the result restores the layout, hence usage and totals |
| Layout.PayloadIsolation | klibc/liballoc/liballoc.c:44-57 | a payload lies in its own minor and meets no header and no other payload |
| Layout.PayloadOf | klibc/liballoc/liballoc.c:44-57 | returned pointers are 16-byte aligned and leave room for the alignment information |
| Allocator.UnalignUndoesAlign | klibc/liballoc/liballoc.c:60-68 | UNALIGN applied to the pointer of a live minor gives back its body, and its header is intact |
| Headers.ReadMajor | klibc/liballoc/liballoc.c:84-93 | a major header stored as bytes reads back as it was |
| Headers.ReadMinor | klibc/liballoc/liballoc.c:99-108 | a minor header stored as bytes reads back as it was |
| Headers.FieldsInOrder | klibc/liballoc/liballoc.c:84-108 | the fields are the six words of the structure, in order and little-endian |
| Headers.CarveImage | klibc/liballoc/liballoc.c:438-561 | the stores that place a minor turn a correct doubly linked list of minors into the list with it inserted |
| Headers.UnlinkImage | klibc/liballoc/liballoc.c:696-708 | the stores of the unlink turn a correct list into the list without the minor |
| Headers.DropImage | klibc/liballoc/liballoc.c:713-721 | taking a major off turns a correct list of majors into the list without it |
| Headers.AppendImage | klibc/liballoc/liballoc.c:378-395 | appending a major turns a correct list of majors into the longer one |
| Allocator.Liballoc.AllocateNewPage | klibc/liballoc/liballoc.c:210-260 | the page count, the new header and the growth of l_allocated; it fails exactly if frames or heap run out |
| Allocator.Liballoc.PlaceFirst | klibc/liballoc/liballoc.c:403-431 | CASE 2 places the request in the empty major, touches no other body, and returns its payload |
| Allocator.Liballoc.PlaceFront | klibc/liballoc/liballoc.c:437-467 | CASE 3 places the request before the first minor |
| Allocator.Liballoc.PlaceLast | klibc/liballoc/liballoc.c:480-515 | CASE 4.1 places the request behind the last minor |
| Allocator.Liballoc.PlaceBetween | klibc/liballoc/liballoc.c:519-557 | CASE 4.2 places the request between two minors |
| Allocator.Liballoc.FindGap | klibc/liballoc/liballoc.c:474-561 | the loop over the minors stops at the first gap behind a minor that holds the request, and knows if it is the last |
| Allocator.Liballoc.Search | klibc/liballoc/liballoc.c:338-593 | the whole search ends, with a state and a pointer that are those of AfterMalloc and Returned |
| Allocator.Liballoc.Kmalloc | klibc/liballoc/liballoc.c:266-609 | new state, result, failure condition, lists and totals in memory, interrupt flag restored, and no byte of another minor's body changed |
| Allocator.Liballoc.FreeMinor | klibc/liballoc/liballoc.c:694-731 | unlink, release and best bet end in the state AfterFree, with no byte of another body changed; the pointer leads to no magic number any more if its major stays |
| Allocator.Liballoc.Kfree | klibc/liballoc/liballoc.c:619-742 | of a live pointer: as FreeMinor, so that freeing it again counts an error and changes no list; of NULL or a pointer without the magic number: lists and totals unchanged; exactly when a warning, an error and a possible overrun are counted |
| Allocator.OverrunIff | klibc/liballoc/liballoc.c:650-655 | a wrong magic number is counted as an overrun if and only if its lowest byte is right |
| Allocator.Liballoc.Copy | klibc/liballoc/liballoc.c:140-163 | the copy by words and then by bytes is the copy of every byte, and writes nothing else |
| Allocator.Liballoc.Move | klibc/liballoc/liballoc.c:845-852 | the moved payload keeps its old bytes, all other bodies are unchanged, and the state is that of kmalloc then kfree |
| Allocator.Liballoc.Krealloc | klibc/liballoc/liballoc.c:764-853 | every case: freeing, allocating, refusing a bad magic, shrinking in place, moving; when it panics; the first min(old, new) bytes are kept and no other payload is touched |
| Allocator.Liballoc.Kcalloc | klibc/liballoc/liballoc.c:748-760 | as kmalloc of the 32-bit product, and the payload is zero; if the product fits, as kmalloc of count * size |
| Allocator.ElementsFitIff | klibc/liballoc/liballoc.c:748-760 | every byte of every element is in what kcalloc asks for if and only if count * size fits in 32 bits |
| Allocator.ElementIsZero | klibc/liballoc/liballoc.c:748-760 | each byte of each element of the array kcalloc returns is zero |
| Allocator.Liballoc.Lock | kernel/kernel/vmm/kernel_heap.c:45-60 | interrupts are off, and whether they were on is remembered |
| Allocator.Liballoc.Unlock | kernel/kernel/vmm/kernel_heap.c:62-71 | interrupts are as remembered |
| History.MallocAdds | klibc/liballoc/liballoc.c:266-609 | kmalloc adds exactly the payload it returns, at an address that was not live |
| History.FreeRemoves | klibc/liballoc/liballoc.c:619-742 | kfree removes exactly the payload it is given |
| History.ShrinkReplaces | klibc/liballoc/liballoc.c:833-843 | a krealloc in place changes the size of that payload only |
| History.RunsAreExact | klibc/liballoc/liballoc.c:113-119 | after every history the layout is in order and the live payloads are exactly the caller's |
| History.BookedAreApart | klibc/liballoc/liballoc.c:44-57 | after every history two live pointers share no byte, are aligned, and lie in the kernel heap |
| Bitmaps.SetChangesOne | kernel/include/kernel/util/bitmap.h:48 | setting bit b makes b set and changes no other bit |
| Bitmaps.ClearChangesOne | kernel/include/kernel/util/bitmap.h:49 | clearing bit b makes b clear and changes no other bit |
| Bitmaps.Bitmap.Test | kernel/include/kernel/util/bitmap.h:50 | reads the bit that Set and Clear write |
| Bitmaps.Bitmap.FirstFree | kernel/kernel/util/bitmap.c:67-84 | the lowest clear bit of the words in use, or -1 if there is none |
| Mmu.DirectoryWindow | kernel/arch/i386/boot.S:211-217 | with slot 1023 pointing to the directory, word d at 0xFFFFF000 is directory entry d |
| Mmu.TableWindow | kernel/arch/i386/pmm/paging.c:155-156 | word t at 0xFFC00000 + 0x1000 d is entry t of the table of a present slot d |
| Mmu.VirtToPhysIsWalk | kernel/arch/i386/vmm/addr.c:25-56 | the walk in software agrees with the processor's on every address, mapped or not |
| Pages.MapReaches | kernel/arch/i386/pmm/paging.c:127-176 | after page_map(p, v, rw, user) the processor finds p + o at v + o for every offset, to be written to if and only if rw and from user mode if and only if user |
| Pages.CanMapIff | kernel/arch/i386/pmm/paging.c:127-176 | page_map succeeds if and only if both addresses are aligned, the bit of the frame is set, the processor finds nothing at the address, and there is a table for it or a free frame for one |
| Pages.MapKeepsOthers | kernel/arch/i386/pmm/paging.c:127-176 | no other translation changes, but for the one placement-heap page if a table is built |
| Pages.BuildKeepsOthers | kernel/arch/i386/pmm/paging.c:143-153 | building a table alone changes at most that page's translation |
| Pages.TableBuilt | kernel/arch/i386/pmm/paging.c:143-153 | the table installed is all zero, its slot restricts no access, its own page is writable and the kernel's, and of all other words none changes |
| Pages.HalfBuilt | kernel/arch/i386/pmm/paging.c:146-151 | while the slot is present without address it is the only thing out of order, and the placement heap does not use it |
| Pages.StructureMapped | kernel/arch/i386/pmm/allocator.c:33-52 | the page returned leads to the frame taken for it, writable and for the kernel only |
| Pages.MapKeepsSane | kernel/arch/i386/pmm/paging.c:127-176 | page_map leaves every present slot leading to a frame in use, and the self-map in place |
| Pages.UnmapRemoves | kernel/arch/i386/pmm/paging.c:178-213 | page_unmap takes away exactly the translations through its entry |
| Pages.UnmapUndoesMap | kernel/arch/i386/pmm/paging.c:127-213 | page_map then page_unmap restores every translation, but for the placement page of a table that was built |
| Paging.Pager.PageAlloc | kernel/arch/i386/pmm/paging.c:89-111 | takes the lowest free frame; fails exactly if there is none |
| Paging.Pager.PageFree | kernel/arch/i386/pmm/paging.c:113-125 | clears the bit of the frame and nothing else |
| Paging.Pager.PageMap | kernel/arch/i386/pmm/paging.c:127-176 | done through the windows, it succeeds exactly if CanMap and ends in the state AfterMap, with the page at its frame and the access asked for; the recursion is one level deep and never uses the half-built slot |
| Paging.Pager.PageUnmap | kernel/arch/i386/pmm/paging.c:178-213 | succeeds exactly if the address is aligned and the processor finds something at it, and then it finds nothing there and the state is AfterUnmap |
| Paging.Pager.StructureAlloc | kernel/arch/i386/pmm/allocator.c:33-52 | maps the lowest free frame at the placement heap, zeroes it through that address, and advances |
| Frames.AllocKeepsGood | kernel/arch/i386/pmm/paging.c:89-111 | a frame taken was nobody's: not reserved, not behind a page, no table |
| Frames.MapKeepsGood | kernel/arch/i386/pmm/paging.c:127-176 | mapping at a free address keeps every page on its own frame and the ledger exact |
| Frames.MapNewKeepsGood | kernel/kernel/vmm/kernel_heap.c:90-98 | so does taking a frame and mapping it; every page handed out stays writable and the kernel's own |
| Frames.UnmapFreeKeepsGood | kernel/kernel/vmm/kernel_heap.c:129-136 | so does unmapping a heap page and freeing its frame; no table is lost |
| Frames.OnlyFramesRunOut | kernel/arch/i386/pmm/paging.c:136-166 | for a free address with the placement heap in place, only a lack of frames can make page_map panic |
| Frames.MapKeepsVacant | kernel/arch/i386/pmm/paging.c:127-176 | addresses not yet handed out stay unmapped |
| Frames.AllocTakesOne | kernel/arch/i386/pmm/paging.c:89-111 | page_alloc fails exactly if no frame is free, and otherwise takes exactly one from the free ones |
| KernelHeap.Heap.Alloc | kernel/kernel/vmm/kernel_heap.c:73-107 | contiguous pages at addresses never handed out, on frames that were free; all other pages keep theirs; every page below the windows but these, that of a new table, and their doubles in slot 0 keeps its translation; fails exactly if frames or heap run out |
| KernelHeap.Heap.Free | kernel/kernel/vmm/kernel_heap.c:109-140 | exactly these pages become unmapped and exactly the frames behind them free; every page below the windows but these keeps its translation |
| Frames.MapUndisturbs | kernel/arch/i386/pmm/paging.c:127-176 | mapping a page changes the translation of no other page below the windows, mapped or not, but those of the new table: its page of the placement heap and the double of that in slot 0 |
| Frames.UnmapUndisturbs | kernel/kernel/vmm/kernel_heap.c:129-136 | nor does unmapping one |
| Frames.UnmapFreesOne | kernel/kernel/vmm/kernel_heap.c:129-136 | exactly one frame more is free afterwards |
| Kernel.KernelMemory.Kmalloc | klibc/liballoc/liballoc.c:266-609 | together with the pages: panics exactly if no gap fits and frames or heap run out; majors and pages handed out still agree; no page below the windows outside the kernel heap changes, but that of a new table and its double |
| Kernel.KernelMemory.Kfree | klibc/liballoc/liballoc.c:619-742 | together with the pages of a released major: exactly those are given back and unmapped, with as many frames; it faults exactly if the pointer is not live and what kfree reads for it is not mapped |
| Kernel.KernelMemory.Krealloc | klibc/liballoc/liballoc.c:764-853 | together with the pages asked for and given back, and exactly how many frames that leaves; when it panics or faults; all that krealloc promises |
| Kernel.KernelMemory.LiveReadable | klibc/liballoc/liballoc.c:642-646 | what kfree and krealloc read for a live pointer is mapped |
| Kernel.KernelMemory.ReadableIff | klibc/liballoc/liballoc.c:642-646 | reading faults if and only if the byte in front of the payload or some byte of the header it leads to is not mapped |
| Kernel.KernelMemory.Kcalloc | klibc/liballoc/liballoc.c:748-760 | together with the pages asked for |
| Kernel.KernelMemory.MallocAndFree | klibc/liballoc/liballoc.c:713-721 | kmalloc then kfree restores the layout and every page's frame, and loses no frame but one for a page table of the heap |
| Kernel.MajorBytesMapped | kernel/kernel/vmm/kernel_heap.c:73-107 | every byte of a major, headers and gaps included, is mapped, into the frame the ledger has for its page, writable and for the kernel only |
| Kernel.LiveBytesMapped | kernel/kernel/vmm/kernel_heap.c:73-107 | every byte of a live payload is mapped, into the frame the ledger has for its page |
| Kernel.LiveBytesApart | kernel/kernel/vmm/kernel_heap.c:73-107 | different bytes of live payloads are different bytes of physical memory |
| KernelHeap.OnlyTheirFrames | kernel/kernel/vmm/kernel_heap.c:129-136 | between exact ledgers that differ by some pages, the frames in use differ by those behind the pages |
| Boot.SpanCovers | kernel/arch/i386/pmm/paging.c:77-87 | the frames of a region loop cover every byte of the region, aligned or not, and at most one frame more |
| Boot.ModuleSpanIs | kernel/arch/i386/pmm/pmm.c:143-159 | although one byte less is passed on, all frames of a module are reserved, and at most one more |
| Boot.ModuleSpanIff | kernel/arch/i386/pmm/pmm.c:143-159 | exactly when no frame is reserved for a module but its own |
| Boot.BootUsedIs | kernel/arch/i386/pmm/pmm.c:56-95 | of the frames the memory map frees, those of the kernel and the modules are in use, frame 0, and at most one behind each |
| Boot.AllInUseIff | kernel/arch/i386/pmm/paging.c:55-57 | all of memory is in use by default if and only if it is at most 32 MiB |
| Boot.WordsCoverMemory | kernel/arch/i386/pmm/paging.c:43-52 | the words in use have a bit for every frame of memory, and no word has none |
| Boot.PlacementFollows | kernel/arch/i386/pmm/allocator.c:27-31 | the placement heap starts at the page behind the kernel's last |
| Boot.InitBitmap | kernel/arch/i386/pmm/paging.c:43-60 | word count, contents, and when the assertion fails |
| Boot.InitRegion | kernel/arch/i386/pmm/paging.c:62-75 | frees exactly the frames of the span, except frame 0 |
| Boot.DeinitRegion | kernel/arch/i386/pmm/paging.c:77-87 | reserves exactly the frames of the span |
| Boot.ParseMemoryMap | kernel/arch/i386/pmm/pmm.c:118-141 | exactly which frames are free afterwards, for any memory map |
| Boot.FreesRegionIff | kernel/arch/i386/pmm/pmm.c:124-125 | reading the length of a region from its address makes no difference to the frames freed if and only if length and address take as many frames |
| Boot.FreesOwnIff | kernel/arch/i386/pmm/pmm.c:124-135 | the frames freed are, frame 0 aside, those that hold a byte of the region if and only if its last byte lies in the last frame of a span as long as its address (or the region is the empty one at 0) |
| Boot.OneFrameTooMany | kernel/arch/i386/pmm/pmm.c:124-135 | a region with its length equal to its address, of which one frame too many is freed |
| Boot.RegionMostlyKept | kernel/arch/i386/pmm/pmm.c:124-135 | a region of 31 MiB of which all but 257 frames stay in use |
| Boot.PreserveModules | kernel/arch/i386/pmm/pmm.c:143-163 | exactly which frames are reserved, and that they hold all of every module |
| Boot.BootIsGood | kernel/arch/i386/boot.S:162-217 | the tables the boot code builds, with the kernel reserved, satisfy the invariant of the kernel heap |
| Boot.PmmInit | kernel/arch/i386/pmm/pmm.c:56-95 | exactly which frames are free; none of frame 0, the kernel or a module; and the heap can start |
| Console.UnmapLowKeepsGood | kernel/arch/i386/boot.S:162-184 | unmapping a page of the first 4 MiB unmaps its double 3 GiB higher too, the tables being one, and nothing else below the windows |
| Console.TtyRemap | kernel/arch/i386/tty.c:76-102 | the video memory is mapped high and neither low nor at the double any more; no other page below the windows changes, but that of a new table and its double; fails exactly if there is no frame for that |
| Console.DeviceBytes | kernel/arch/i386/tty.c:76-102 | the same for every byte; the high ones writable and the kernel's own |
| Modules.ModuleCanMap | kernel/arch/i386/pmm/paging.c:136-166 | a reserved frame can be mapped at the next free page unless a table is missing and no frame is left |
| Modules.MapModule | kernel/kernel/module.c:73-79 | maps all pages of a module in order, and keeps what was mapped before and every gap |
| Modules.PositionsGrow | kernel/kernel/module.c:93 | modules are put behind each other with a page between |
| Modules.ByteOfModule | kernel/kernel/module.c:73-85 | byte k of a mapped module is found at its table address plus k, not to be written to, nor reached from user mode |
| Modules.ModuleTableInit | kernel/kernel/module.c:40-95 | every byte of every module is found at its table address, with an unmapped page behind each; no other page below the windows changes, but those of new tables and their doubles; fails only for want of frames for tables |
| Startup.BootBetween | kernel/arch/i386/boot.S:162-217 | the boot code's tables are as tty_remap needs them |
| Startup.ModulesSurvive | kernel/kernel/module.c:53-94 | whatever changes only the kernel heap leaves every byte of every module mapped |
| Startup.Prepare | kernel/arch/i386/pmm/pmm.c:56-95 | pmm_init and tty_remap in turn succeed exactly if the bitmap is large enough and a frame is free; frame 0, the kernel and the modules are reserved |
| Startup.LoadModules | kernel/kernel/module.c:40-95 | module_table_init with its kcalloc, after the two: all modules mapped, the console too; a live payload holds an entry for each; the kernel can go on allocating; the kernel's, the modules' and frame 0 are protected |
| Startup.TableMapped | kernel/kernel/module.c:45-50 | once the table is allocated the kernel heap has its page table, so that it can go on growing |
| Startup.Start | kernel/kernel/kernel.c:101-115 | from the boot state: modules and console mapped, allocator and heap in order, no page handed out on a frame of the kernel, a module or frame 0; the kernel returned is new and can go on; succeeds given frames and heap |
| Accounts.CallKeeps | klibc/liballoc/liballoc.c:266-853 | every call for which there is memory leaves the layout in order, with exactly the payloads the callers then have; a krealloc that moves is a kmalloc and a kfree |
| Accounts.NothingForgotten | klibc/liballoc/liballoc.c:753-853 | what the callers are said to know of a payload is all there is: kcalloc zeroes count * size bytes, krealloc keeps the common bytes, a store changes one |
| Accounts.OthersStay | klibc/liballoc/liballoc.c:266-853 | no other payload comes, goes or is changed by a call |
| Accounts.ReallocStays | klibc/liballoc/liballoc.c:833-843 | a krealloc that does not grow the payload never fails and returns the same pointer; to the size it has it changes nothing |
| Accounts.StopsWhere | klibc/liballoc/liballoc.c:266-853 | any sequence of calls ends early if and only if the next call is not proper, or the heap or the frames are short for it after those before |
| Accounts.LastsWhen | klibc/liballoc/liballoc.c:266-853 | memory lasts if there are the pages of a new major for every call that allocates, and a frame for a page table |
| Service.Serve | klibc/liballoc/liballoc.c:266-853 | any sequence of calls and of the callers' own stores returns, ends and leaves what CourseOf says; every live byte is what was last written to it, through krealloc and kcalloc too; modules and console stay mapped, no frame of the kernel, a module or frame 0 is handed out |
| Service.Answer | klibc/liballoc/liballoc.c:266-853 | one call: when it panics, what it returns, and what it leaves of layout, frames and contents |
| Service.MovedIsRemembered | klibc/liballoc/liballoc.c:845-852 | after a move the first bytes of the payload are what was last written to them |
| Service.StoreIsRemembered | klibc/liballoc/liballoc.c:44-57 | a store to one payload changes no byte of another |
| Service.BootAndServe | kernel/kernel/kernel.c:101-115 | the same from the boot state on, through Start; it gets to the calls given the frames and heap for the modules, and to their end given those for the calls |
| Service.Allocate | klibc/liballoc/liballoc.c:266-609 | kmalloc and kcalloc on the running kernel: panic exactly if frames or heap run out; otherwise the result and account of AfterCall, zeroes known after kcalloc |
| Service.Release | klibc/liballoc/liballoc.c:619-742 | kfree of NULL or of a pointer the callers have never faults or panics, and takes that payload off |
| Service.Resize | klibc/liballoc/liballoc.c:764-853 | krealloc likewise: panic exactly if it has to move and memory runs out |
| Separation.StepMatches | kernel/arch/i386/boot.S:211-217 | a heap store through the walk, a page acquired or given back: the machine with heap and tables in one memory and the one with the heap apart stay in step |
| Separation.RunsMatch | kernel/arch/i386/boot.S:211-217 | over every run both agree on every translation and on every byte of the heap, so that no heap store reaches a table and no table write the heap |
| Separation.LoadsFlat | kernel/kernel/vmm/kernel_heap.c:73-107 | what the processor loads through the walk from a heap address is what the flat memory holds |
| Separation.TableWords | kernel/arch/i386/pmm/paging.c:143-153 | every word of physical memory after a table is built |
| Separation.ViewOf | kernel/kernel/vmm/kernel_heap.c:73-107 | every good state has its view with the heap apart |
| Physical.PageRun | kernel/kernel/vmm/kernel_heap.c:73-140 | the pages liballoc_alloc and liballoc_free map and unmap are steps of the machine |
| Physical.StoreRun | klibc/liballoc/liballoc.c:266-853 | any change to bytes of the heap is a run of stores |
| Physical.CallIsRun | klibc/liballoc/liballoc.c:266-853 | pages acquired, stores in majors and the new pages, pages given back: a run of the machine with everything in one memory |
| Physical.Answer | klibc/liballoc/liballoc.c:266-853 | every call of the allocator on the running kernel is such a run |
| Physical.Foretelling | klibc/liballoc/liballoc.c:231 | whatever new pages are found to hold, the flat memory can be taken to hold there beforehand |
| Separation.MajorIsHeap | klibc/liballoc/liballoc.c:266-853 | the range inside a major that each store of the allocator is required to be in lies in pages of the heap |
| Scheduling.StepKeeps | kernel/kernel/proc/scheduler.c:83-217 | every step keeps the queue free of duplicates, the current process queued, and only the current process asking to yield; the queue only grows |
| Scheduling.Run | kernel/kernel/proc/scheduler.c:83-217 | so does every run |
| Scheduling.SwitchesGoRound | kernel/kernel/proc/scheduler.c:136-193 | over every run each switch changes process, goes on with the next of the queue as it was, and takes over from the switch before |
| Scheduling.LoadsOwnContext | kernel/arch/i386/proc/scheduler_asm.S:58-66 | over every run the stack pointer loaded for a process is the one saved when it last lost the processor, or its first |
| Scheduling.FreesFirstContexts | kernel/kernel/proc/scheduler.c:180-186 | over every run exactly the heap-owned contexts of processes that lost the processor are freed, each the first time |
| Scheduling.FreedOnce | kernel/kernel/proc/scheduler.c:180-186 | none of them is freed twice |
| Scheduling.Rotates | kernel/kernel/proc/scheduler.c:136-151 | while nothing is added, switch k from position i goes to position (i + k + 1) mod n, counting from 0 |
| Scheduling.EveryoneRuns | kernel/kernel/proc/scheduler.c:83-151 | whatever is added meanwhile, every queued process gets the processor within as many switches as the queue has processes in the end |
| Scheduling.QuantumCountsDown | kernel/kernel/proc/scheduler.c:204-205 | over every run the quantum is its first value less the process's own ticks, modulo 2^32 |
| Scheduling.YieldThenTick | kernel/kernel/proc/process.c:35-40 | with preemption on and another process queued, the tick after a yield switches; the yield leaves the other flags alone |
| Scheduling.FlaggedWhenYielded | kernel/kernel/proc/process.c:35-40 | over every run a process is flagged if and only if it has yielded since it last lost the processor, or was flagged before and has not lost it; PROC_FREE never changes |
| Scheduling.SwitchedWhen | kernel/kernel/proc/scheduler.c:200-217 | exactly when a step switches: on a tick, with company, if the process has yielded since it last lost the processor or its own ticks reach the first quantum modulo 2^32 |
| Scheduling.Scheduler.AddProcess | kernel/kernel/proc/scheduler.c:83-125 | appends a process that is not queued, or returns false and changes nothing |
| Scheduling.Scheduler.FindLast | kernel/kernel/proc/scheduler.c:103-117 | the walk finds out whether the process is queued, and otherwise the last one |
| Scheduling.Scheduler.FindNextBest | kernel/kernel/proc/scheduler.c:136-151 | the process behind the current one in the queue, or the first |
| Scheduling.Scheduler.Tick | kernel/kernel/proc/scheduler.c:200-217 | ends in the state AfterTick |
| Scheduling.Scheduler.Yield | kernel/kernel/proc/process.c:35-40 | flags the current process and nothing else |
| Scheduling.Scheduler.Stage1 | kernel/kernel/proc/scheduler.c:162-193 | ends in the state AfterStage1 |
| Scheduling.Scheduler.Stage2 | kernel/arch/i386/proc/scheduler_asm.S:58-66 | loads the current process's stack pointer and clears the request |
| Scheduling.Scheduler.Interrupt | kernel/arch/i386/interrupt_asm.S:42-60 | handler, then both stages if a switch is asked for, keep the invariant and end in the state AfterInterrupt |
| Scheduling.Scheduler.Bootstrap | kernel/arch/i386/proc/scheduler_asm.S:24-34 | the given process is current, with the stack pointer it was saved with |
| Interrupts.OneIrq | kernel/arch/i386/interrupt.c:203-247 | masking or unmasking an IRQ changes that IRQ only |
| Interrupts.HalvesAreMask | kernel/arch/i386/interrupt.c:72-74 | the master's byte holds the masks of IRQ 0 to 7, the slave's those of 8 to 15 |
| Interrupts.RegionGuards | kernel/include/kernel/interrupt.h:51-67 | for any nesting of regions inside, the timer is masked from lock to unlock, by the lowest bit of the master's register |
| Interrupts.CascadeStaysOpen | kernel/arch/i386/interrupt.c:203-247 | the slave's interrupts are never masked as a whole |
| Interrupts.TimerKept | kernel/include/kernel/interrupt.h:51-67 | for any nesting the timer's mask ends as it began, and once masked it stays so |
| Interrupts.RegionsLeaveNoTrace | kernel/include/kernel/interrupt.h:51-67 | code with regions ends with the mask it would end with without them |
| Interrupts.RegionsAlone | kernel/include/kernel/interrupt.h:51-67 | regions alone end with the very mask they began with |
| Atomicity.NothingBetween | kernel/include/kernel/interrupt.h:51-67 | code that runs with the timer masked, with any nesting of regions, ends as if nothing had come |
| Atomicity.RegionAlone | kernel/include/kernel/interrupt.h:51-67 | from the test of irq_mask to the unmasking a region runs alone, and leaves the mask as it was |
| Atomicity.RegionsAreAtomic | kernel/include/kernel/interrupt.h:51-67 | for any code and any arrival of interrupts, between the test and the masking too, it ends as if each outermost region were a single action and the interrupts came between actions |
| Atomicity.NothingInvented | kernel/include/kernel/interrupt.h:51-67 | each of the interrupts it then gets is one that arrived |
| Callers.CallAlone | kernel/kernel/proc/scheduler.c:83-125 | the stores of scheduler_add_process and process_yield by themselves come to the scheduler's step |
| Callers.AddedAlways | kernel/kernel/proc/scheduler.c:83-125 | with any queue, also none, a process is added if and only if it is not in it, and true is returned if and only if it is added |
| Callers.CallsInterleave | kernel/kernel/proc/scheduler.c:83-125 | these calls, made in regions and however interrupted, end in the state of a run with each call as one step and what came between in between |
| Callers.LostWithoutRegion | kernel/kernel/proc/scheduler.c:88-123 | without the region a process added in between is lost |
| Exclusion.StepKeepsGood | kernel/arch/i386/interrupt.c:203-287 | each test, store and tick but a dangerous one leaves chip, irq_mask and all processes consistent |
| Exclusion.RegionsExclude | kernel/include/kernel/interrupt.h:51-67 | over every run of any number of processes without a dangerous tick at most one is inside a region, and no tick comes there |
| Exclusion.ExclusionIff | kernel/arch/i386/interrupt.c:269-287 | regions go on excluding one another after a step if and only if it is not a tick that takes the processor between the store to the chip and that to irq_mask in int_unlock_region |
| Exclusion.DangerBreaks | kernel/arch/i386/interrupt.c:269-287 | after such a tick a run in which a process is inside a region and does not have the processor |
| Interrupts.Controller.RemapPic | kernel/arch/i386/interrupt.c:289-305 | from any state of the chips: vectors, cascade and mode as given, and the mask registers equal to irq_mask |
| Interrupts.Controller.SetRawMask | kernel/arch/i386/interrupt.c:269-287 | the mask registers stay equal to irq_mask, and only halves that change are written |
| Interrupts.Controller.MaskIrq | kernel/arch/i386/interrupt.c:203-221 | masks the IRQ, and says whether it was unmasked |
| Interrupts.Controller.UnmaskIrq | kernel/arch/i386/interrupt.c:229-247 | unmasks the IRQ, and says whether it was masked |
| Interrupts.Controller.IrqEnabled | kernel/arch/i386/interrupt.c:256-261 | what the chip's mask register says |
| Interrupts.Controller.LockRegion | kernel/include/kernel/interrupt.h:51-58 | the master masks IRQ 0; the result says whether it did not before |
| Interrupts.Controller.UnlockRegion | kernel/include/kernel/interrupt.h:63-67 | the master unmasks IRQ 0 if the lock says so, and otherwise is left alone |
| Interrupts.Controller.Acknowledge | kernel/arch/i386/interrupt.c:373-377 | the end-of-interrupt commands change no mask, and end one interrupt on the master, and on the slave for IRQ 8 to 15 |
| Interrupts.EndsMostUrgent | kernel/arch/i386/interrupt.c:373-377 | that is the most urgent one in service, and no other |
| Interrupts.Controller.Execute | kernel/include/kernel/interrupt.h:51-67 | any nesting of regions, run on the controllers, ends as without regions, and after each step the chips' registers hold the mask that RegionGuards and TimerKept speak of |
| Formatting.NumberOfDigits | klibc/stdio/vsprintf.c:127-179 | reading the digits written for a number gives back the number, in base 10 and 16 |
| Formatting.DigitCount | klibc/stdio/vsprintf.c:127-179 | no leading zero, and exactly as many digits as the number needs |
| Formatting.WordDigits | klibc/stdio/vsprintf.c:127-179 | at most ten decimal and eight hexadecimal digits |
| Formatting.SignedRoundTrip | klibc/stdio/vsprintf.c:111-125 | every int32, the smallest included, is given back from its text |
| Formatting.HexRoundTrip | klibc/stdio/vsprintf.c:151-179 | every uint32 is given back from its text, which begins with 0x |
| Formatting.LowFirstReversed | klibc/stdio/vsprintf.c:129-144 | digits produced lowest first, turned round, are the digits highest first |
| Formatting.Reverse | klibc/stdio/vsprintf.c:136-144 | turns round the given characters in place and touches no other |
| Formatting.WriteDigits | klibc/stdio/vsprintf.c:129-134 | writes exactly the digits, lowest first |
| Formatting.Ultoa | klibc/stdio/vsprintf.c:127-149 | writes the decimal digits and a NUL, and nothing else |
| Formatting.Ultox | klibc/stdio/vsprintf.c:151-179 | writes 0x, the hexadecimal digits and a NUL, and nothing else |
| Formatting.Ltoa | klibc/stdio/vsprintf.c:111-125 | writes the signed decimal text and a NUL, and nothing else |
| Formatting.Vsprintf | klibc/stdio/vsprintf.c:30-109 | the buffer holds the rendering and a NUL, the rest of it is unchanged, and the result is the length |
| Formatting.SignedDirective | klibc/stdio/vsprintf.c:54-63 | %d and %i print a word as digits, with a minus if negative, that read back as the signed number |
| Formatting.UnsignedDirective | klibc/stdio/vsprintf.c:65-72 | %u prints digits that read back as the word |
| Formatting.HexDirective | klibc/stdio/vsprintf.c:74-82 | %x and %p print 0x and hexadecimal digits that read back as the word |
| Formatting.WordDirectives | klibc/stdio/vsprintf.c:47-52 | %c prints the low byte, and %b true or false |
| Formatting.OtherDirectives | klibc/stdio/vsprintf.c:39-45 | %s prints the string, and % before any other character that character |
| Formatting.RenderedInTurn | klibc/stdio/vsprintf.c:35-105 | formats side by side render side by side |
| Formatting.RenderedAsIs | klibc/stdio/vsprintf.c:101-104 | a format without directives renders as it is |

## Left out

- Allocator.Liballoc.Kmalloc: requests above 0xFFFFFFAF bytes are excluded, for which the major acquired is too small and the headers in it are overrun or the search takes all of the heap (Search.FreshHoldsIff, Search.WrappedRequests); the branch for a padded size of zero cannot be reached by the others.
- Allocator.Liballoc.Krealloc: so are such sizes.
- Allocator.Liballoc.Kcalloc: and such products; memset is modelled as a store per byte.
- Allocator.Liballoc.AllocateNewPage: here the kernel heap is an address that moves up, and whether frames are left is a parameter; Kernel.KernelMemory decides that by `liballoc_alloc`, and calls it and `liballoc_free` right after the stores of the call they belong to instead of between them, which shows only in what a panic leaves behind.
- Kernel.KernelMemory.Kmalloc: payload bytes are kept by address, not in the words of physical memory the page tables are in; Physical.Answer puts the call into that memory.
- Kernel.KernelMemory.Kfree: reading a header that is not mapped ends the call; the page fault handler is not modelled.
- Allocator.Liballoc.Kfree: a pointer is live, NULL, or leads to a word that is not the magic number; a stale pointer into memory that was reused is not decidable from the code.
- Allocator.Liballoc.Search: the one long function is split into methods (Begin, Hop, Extend, Advance, Settle, Fill and the placing cases) at the points where its cases meet.
- Paging.Pager.PageMap: the stores to the separate bit fields of an entry are one store per statement group, memset of a page is a store per word, and mapped addresses lie below the windows.
- Paging.Pager.StructureAlloc: the placement heap works while its directory entry is present, that is up to 0xC0400000; Boot and KernelHeap keep that true.
- Boot.ParseMemoryMap: an available region must lie within the bitmap with its address taken for its length; the loop runs past the bitmap otherwise.
- Boot.PreserveModules: a module must lie within the bitmap and have at least one byte, for the same reason.
- Boot.PmmInit: regions and modules are required to lie within the bitmap, and a module to have at least one byte (the loop runs past the bitmap otherwise); multiboot flags, printing and the page fault handler are not modelled.
- Modules.ModuleTableInit: the table is a sequence instead of a block from kcalloc, and names and command lines are left out; the addresses the modules take must be free, and the placement heap large enough.
- Startup.Start: the memory map must not offer the video memory as available, the modules must end below the console's high address, and the placement heap must have room for all page tables.
- Scheduling.Scheduler.AddProcess: the process must carry no residual next pointer, which the code only warns of.
- Atomicity.RegionsAreAtomic: the stores to the chip and to irq_mask are one action here, which is right for all but the dangerous ticks of Exclusion.ExclusionIff.
- Callers.CallsInterleave: the loop of scheduler_add_process is unrolled as often as there are processes; interrupted code goes on with its registers as they were.
- Exclusion.RegionsExclude: of the mask only the timer's bit is modelled; the handlers' own regions come and go within a tick, interrupts being off there.
- Scheduling.Scheduler.Bootstrap: the stack pointer it finds among the saved registers is a parameter; the rest of a register frame is not modelled.
- Scheduling.Scheduler.Stage1: a process and its one thread are one object; the regions these functions lock are those of the interrupts module, not repeated here.
- Formatting.Vsprintf: the arguments are required to be what the format asks for, and the buffer to be large enough, as in C.
- TLB flushing: the walk always sees the current tables.
- Panics and assertions end the call with a failure result; what they print is left out, and so is all other printing.
- Serial port, console, keyboard, timer chip, descriptor tables, boot assembly and linker script; the boot code's page tables are assumed in the shape Boot.Booted states.
- The lists of IRQ handlers, the handler table, and `int_register_irq_handler`.
- `klibc/string`, ELF loading, the unfinished heap_grow and heap_shrink, page directories of other processes, and what the processes run.
- Time slices: the quantum is never reloaded, so fairness is stated in switches.
