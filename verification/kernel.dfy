/** The allocator and the kernel heap under it, together: the pages of the majors are
    exactly the pages the heap has handed out. */
module Kernel {
  import opened Machine
  import Memory
  import opened Layout
  import opened Search
  import opened Headers
  import opened Allocator
  import M = Mmu
  import P = Pages
  import F = Frames
  import opened History
  import KernelHeap

  // va is a page of one of the majors.
  ghost predicate PageOfMajor(l: seq<Block>, va: int) {
    va % PAGE_SIZE == 0 && exists i :: 0 <= i < |l| && l[i].base <= va < Limit(l[i])
  }

  // The pages the ledger has for the kernel heap are those of the majors.
  ghost predicate Backed(l: seq<Block>, ledger: F.Ledger) {
    forall va :: va in ledger.pages && F.PLACEMENT_END <= va <==> PageOfMajor(l, va)
  }

  lemma PagesOfUpdate(l: seq<Block>, i: int, b: Block, va: int)
    requires 0 <= i < |l| && b.base == l[i].base && b.pages == l[i].pages
    ensures PageOfMajor(l[i := b], va) <==> PageOfMajor(l, va)
  {
    var l' := l[i := b];
    if PageOfMajor(l, va) {
      var j :| 0 <= j < |l| && l[j].base <= va < Limit(l[j]);
      assert l'[j].base <= va < Limit(l'[j]);
    }
    if PageOfMajor(l', va) {
      var j :| 0 <= j < |l'| && l'[j].base <= va < Limit(l'[j]);
      assert l[j].base <= va < Limit(l[j]);
    }
  }

  lemma PagesOfGrowth(l: seq<Block>, b: Block, va: int)
    ensures PageOfMajor(l + [b], va) <==> PageOfMajor(l, va) || (va % PAGE_SIZE == 0 && b.base <= va < Limit(b))
  {
    var l' := l + [b];
    if PageOfMajor(l, va) {
      var j :| 0 <= j < |l| && l[j].base <= va < Limit(l[j]);
      assert l'[j].base <= va < Limit(l'[j]);
    }
    assert l'[|l|] == b;
  }

  lemma PagesOfDelete(l: seq<Block>, i: int, va: int)
    requires Sound(l) && 0 <= i < |l|
    ensures PageOfMajor(Delete(l, i), va) <==> PageOfMajor(l, va) && !(l[i].base <= va < Limit(l[i]))
  {
    hide WellPlaced, Limit;
    var l' := Delete(l, i);
    if PageOfMajor(l', va) {
      var j :| 0 <= j < |l'| && l'[j].base <= va < Limit(l'[j]);
      var n := if j < i then j else j + 1;
      assert l[n].base <= va < Limit(l[n]);
      assert if n < i then Limit(l[n]) <= l[i].base else Limit(l[i]) <= l[n].base;
    }
    if PageOfMajor(l, va) && !(l[i].base <= va < Limit(l[i])) {
      var j :| 0 <= j < |l| && l[j].base <= va < Limit(l[j]);
      var n := if i < j then j - 1 else j;
      assert l'[n].base <= va < Limit(l'[n]);
    }
  }

  lemma PagesOfRelease(l: seq<Block>, i: int, k: int, va: int)
    requires Sound(l) && Listed(l, i, k)
    ensures PageOfMajor(Release(l, i, k), va) <==>
      PageOfMajor(l, va) && !(|l[i].chunks| == 1 && l[i].base <= va < Limit(l[i]))
  {
    if |l[i].chunks| == 1 {
      PagesOfDelete(l, i, va);
    } else {
      PagesOfUpdate(l, i, Unlink(l[i], k), va);
    }
  }

  // ------------------------------------------------------------ single calls

  // What kmalloc takes from the heap under it.
  function Growth(s: HeapState, req: int): int
    requires BetListed(s.layout, s.bet)
  {
    if Grows(s, req) then PagesFor(req) else 0
  }

  lemma MallocStaysBacked(s: HeapState, req: int, l: F.Ledger, l': F.Ledger)
    requires Good(s) && 0 <= req && Backed(s.layout, l)
    requires var n := Growth(s, req);
      forall va :: va in l'.pages && F.PLACEMENT_END <= va <==>
        (va in l.pages && F.PLACEMENT_END <= va) || (va % PAGE_SIZE == 0 && s.brk <= va < s.brk + n * PAGE_SIZE)
    ensures Backed(AfterMalloc(s, req).layout, l')
  {
    hide Choose, GapFor, FinalBet, PagesFor, PageOfMajor;
    var room, i := Room(s, req), Choose(s, req).index;
    RoomIsSound(s, req);
    forall va ensures va in l'.pages && F.PLACEMENT_END <= va <==> PageOfMajor(AfterMalloc(s, req).layout, va) {
      PagesOfUpdate(room, i, Carve(room[i], GapFor(s, req), req), va);
      if Grows(s, req) { PagesOfGrowth(s.layout, Fresh(s.brk, req), va); }
    }
  }

  lemma FreeStaysBacked(s: HeapState, i: int, k: int, l: F.Ledger, l': F.Ledger)
    requires Sane(s) && Listed(s.layout, i, k) && Backed(s.layout, l)
    requires var b := s.layout[i];
      forall va :: va in l'.pages <==>
        va in l.pages && !(|b.chunks| == 1 && va % PAGE_SIZE == 0 && b.base <= va < Limit(b))
    ensures Backed(AfterFree(s, i, k).layout, l')
  {
    hide PageOfMajor, Release;
    forall va ensures va in l'.pages && F.PLACEMENT_END <= va <==> PageOfMajor(AfterFree(s, i, k).layout, va) {
      PagesOfRelease(s.layout, i, k, va);
      if PageOfMajor(s.layout, va) { AlignedPages(s.layout, va); }
    }
  }

  lemma AlignedPages(l: seq<Block>, va: int)
    requires PageOfMajor(l, va)
    ensures va % PAGE_SIZE == 0
  {
  }

  // ---------------------------------------------------------------- together

  class KernelMemory {
    const alloc: Liballoc
    const heap: KernelHeap.Heap

    ghost predicate Valid()
      reads alloc, heap, heap.pager, heap.pager.bitmap, heap.pager.bitmap.bits
    {
      && alloc.Valid() && heap.Valid() && alloc.brk == KHEAP_START + heap.size
      && Backed(alloc.layout, heap.ledger)
    }

    constructor (alloc: Liballoc, heap: KernelHeap.Heap)
      requires alloc.Valid() && alloc.State() == INITIAL && heap.Valid() && heap.size == 0
      ensures this.alloc == alloc && this.heap == heap && Valid()
    {
      hide F.Good, KernelHeap.Room;
      this.alloc, this.heap := alloc, heap;
    }

    // liballoc_alloc has what it needs: its page table, or room for it.
    ghost predicate CanExtend()
      requires heap.Valid()
      reads heap, heap.pager, heap.pager.bitmap, heap.pager.bitmap.bits
    {
      heap.HeapTable() || heap.pager.placement < F.PLACEMENT_END
    }

    // The kernel can read the byte at x.
    predicate MappedAt(x: int)
      requires heap.Valid() && M.Address(x)
      reads heap, heap.pager, heap.pager.bitmap, heap.pager.bitmap.bits
    {
      M.Walk(heap.pager.phys, heap.pager.root, x).Some?
    }

    // It can read the byte that was left in front of the payload at ptr, and the header that
    // leads to; otherwise there is a page fault, and that is a panic.
    predicate Readable(ptr: int)
      requires heap.Valid() && |alloc.mem| == Memory.MEMORY_SIZE
      requires MINOR_SIZE + ALIGNMENT + ALIGN_INFO <= ptr < Memory.MEMORY_SIZE
      reads alloc, heap, heap.pager, heap.pager.bitmap, heap.pager.bitmap.bits
    {
      var min := Unaligned(alloc.mem, ptr) - MINOR_SIZE;
      MappedAt(ptr - ALIGN_INFO) && MappedAt(min) && MappedAt(min + MINOR_SIZE - 1)
    }

    // Taking ptr for a pointer to a payload ends in a page fault.
    ghost predicate Faults(ptr: int)
      requires Valid() && (ptr == 0 || MINOR_SIZE + ALIGNMENT + ALIGN_INFO <= ptr < Memory.MEMORY_SIZE)
      reads alloc, heap, heap.pager, heap.pager.bitmap, heap.pager.bitmap.bits
    {
      ptr != 0 && !Readable(ptr)
    }

    // What a call has done is stores inside the majors, and behind them as far as the heap has
    // grown, and pages acquired there before and given back after.
    twostate predicate Traced()
      requires old(Valid()) && Valid()
      reads alloc, heap, heap.pager, heap.pager.bitmap, heap.pager.bitmap.bits
    {
      && Confined(old(alloc.mem), alloc.mem, old(alloc.layout), old(alloc.brk), alloc.brk)
      && F.Paged(old(heap.pager.State()), old(heap.ledger), old(alloc.brk), (alloc.brk - old(alloc.brk)) / PAGE_SIZE,
                 heap.pager.State(), heap.ledger, heap.pager.root)
    }

    // The request cannot be granted.
    ghost predicate Exhausted(req: int)
      requires Valid()
      reads alloc, heap, heap.pager, heap.pager.bitmap, heap.pager.bitmap.bits
    {
      var s := alloc.State();
      Grows(s, req) && !(CanGrow(s, req) && heap.Available() >= heap.Wanted(PagesFor(req)))
    }

    // The pages a kmalloc in state s has put majors on, from brk on, are asked for.
    method Extend(brk: int, ghost s: HeapState, ghost req: int) returns (ok: bool)
      requires heap.Valid() && CanExtend() && brk == KHEAP_START + heap.size == s.brk
      requires Good(s) && 0 <= req && (Grows(s, req) ==> CanGrow(s, req)) && Backed(s.layout, heap.ledger)
      requires alloc.brk == s.brk + Growth(s, req) * PAGE_SIZE
      modifies heap, heap.pager`phys, heap.pager`placement, heap.pager.bitmap.bits
      ensures ok <==> !Grows(s, req) || old(heap.Available()) >= old(heap.Wanted(PagesFor(req)))
      ensures ok ==>
        && heap.Valid() && CanExtend() && alloc.brk == KHEAP_START + heap.size
        && Backed(AfterMalloc(s, req).layout, heap.ledger)
        && heap.Available() == old(heap.Available() - if Grows(s, req) then heap.Wanted(PagesFor(req)) else 0)
        && heap.HeapTable() == (old(heap.HeapTable()) || Grows(s, req))
        && heap.Grown(KHEAP_START + old(heap.size), KHEAP_START + heap.size) && heap.OnlyHeapChanged()
        && heap.pager.placement <= old(heap.pager.placement) + PAGE_SIZE
        && F.PageSteps(old(heap.pager.State()), old(heap.ledger), F.Takes(brk, Growth(s, req)), heap.pager.State(),
                       heap.ledger, heap.pager.root)
    {
      hide F.Good, F.Undisturbed, KernelHeap.OnlyAdded, KernelHeap.Room, KernelHeap.PagesAt, KernelHeap.Fits, Sane, Image,
           AfterMalloc, Grows, PagesFor, Backed, NoneEmpty, P.Used, F.PageSteps, F.Takes;
      F.NoPages(heap.pager.State(), heap.ledger, brk, heap.pager.root);
      ghost var t, l := heap.pager.State(), heap.ledger;
      KernelHeap.NothingAdded(t, l, heap.pager.root, KHEAP_START + heap.size);
      GrowthOf(s, req);
      ok := true;
      if alloc.brk != brk {
        var start;
        ok, start := heap.Alloc((alloc.brk - brk) / PAGE_SIZE);
        if !ok { return; }
        heap.PlacementBound();
        PagesAdded(t, l, heap.pager.State(), heap.ledger, heap.pager.root, start, PagesFor(req));
      }
      KernelHeap.AddedInHeap(t, l, heap.pager.State(), heap.ledger, heap.pager.root, brk, alloc.brk);
      MallocStaysBacked(s, req, l, heap.ledger);
    }

    // kmalloc, with the pages it asks for.
    method Kmalloc(req: int) returns (r: Outcome)
      requires Valid() && CanExtend() && 0 <= req <= MAX_REQUEST
      modifies alloc, heap, heap.pager`phys, heap.pager`placement, heap.pager.bitmap.bits
      ensures r == Panic <==> old(Exhausted(req))
      ensures r.Ret? ==>
        && Valid() && CanExtend()
        && alloc.State() == AfterMalloc(old(alloc.State()), req) && r.p == Returned(old(alloc.State()), req)
        && alloc.interrupts == old(alloc.interrupts)
        && Kept(old(alloc.mem), alloc.mem, old(alloc.layout), old(alloc.brk), alloc.brk)
        && heap.Available() == old(heap.Available() - if Grows(alloc.State(), req) then heap.Wanted(PagesFor(req)) else 0)
        && heap.HeapTable() == old(heap.HeapTable() || Grows(alloc.State(), req))
        && heap.Grown(KHEAP_START + old(heap.size), KHEAP_START + heap.size) && heap.OnlyHeapChanged()
        && heap.pager.placement <= old(heap.pager.placement) + PAGE_SIZE && Traced()
    {
      hide F.Good, F.Undisturbed, KernelHeap.OnlyAdded, KernelHeap.Room, Sane, Image, AfterMalloc, Returned,
           InUse, Allocated, BodiesKept, Confined, F.PageSteps, F.Takes, F.Paged, F.GivenBack, Grows, CanGrow, PagesFor,
           Backed, NoneEmpty, P.Used;
      ghost var s := alloc.State();
      var brk := alloc.brk;
      GoodOf(alloc);
      GrowthOf(s, req);
      r := alloc.Kmalloc(req, true);
      if r == Panic { return; }
      ghost var t, l := heap.pager.State(), heap.ledger;
      var ok := Extend(brk, s, req);
      if !ok { return Panic; }
      Grew(t, l, brk, Growth(s, req), heap.pager.State(), heap.ledger, heap.pager.root);
    }

    // kcalloc, with the pages it asks for.
    method Kcalloc(count: int, size: int) returns (r: Outcome)
      requires Valid() && CanExtend() && 0 <= count && 0 <= size && Total(count, size) <= MAX_REQUEST
      modifies alloc, heap, heap.pager`phys, heap.pager`placement, heap.pager.bitmap.bits
      ensures r == Panic <==> old(Exhausted(Total(count, size)))
      ensures r.Ret? ==> var n := Total(count, size);
        && Valid() && CanExtend()
        && alloc.State() == AfterMalloc(old(alloc.State()), n) && r.p == Returned(old(alloc.State()), n)
        && alloc.interrupts == old(alloc.interrupts)
        && Kept(old(alloc.mem), alloc.mem, old(alloc.layout), old(alloc.brk), alloc.brk)
        && 0 <= r.p && r.p + n <= |alloc.mem| && (forall x :: r.p <= x < r.p + n ==> alloc.mem[x] == 0)
        && heap.Available() == old(heap.Available() - if Grows(alloc.State(), n) then heap.Wanted(PagesFor(n)) else 0)
        && heap.HeapTable() == old(heap.HeapTable() || Grows(alloc.State(), n))
        && heap.Grown(KHEAP_START + old(heap.size), KHEAP_START + heap.size) && heap.OnlyHeapChanged()
        && heap.pager.placement <= old(heap.pager.placement) + PAGE_SIZE && Traced()
      ensures r.Ret? && count * size <= MAX_REQUEST ==>
        && alloc.State() == AfterMalloc(old(alloc.State()), count * size)
        && r.p == Returned(old(alloc.State()), count * size) && 0 <= r.p && r.p + count * size <= |alloc.mem|
        && forall x :: r.p <= x < r.p + count * size ==> alloc.mem[x] == 0
    {
      hide F.Good, F.Undisturbed, KernelHeap.OnlyAdded, KernelHeap.Room, Sane, Image, AfterMalloc, Returned,
           InUse, Allocated, BodiesKept, Confined, F.PageSteps, F.Takes, F.Paged, F.GivenBack, Grows, CanGrow, PagesFor,
           Backed, NoneEmpty, P.Used;
      ghost var s := alloc.State();
      var brk, n := alloc.brk, Total(count, size);
      GoodOf(alloc);
      GrowthOf(s, n);
      r := alloc.Kcalloc(count, size, true);
      if r == Panic { return; }
      ghost var t, l := heap.pager.State(), heap.ledger;
      var ok := Extend(brk, s, n);
      if !ok { return Panic; }
      Grew(t, l, brk, Growth(s, n), heap.pager.State(), heap.ledger, heap.pager.root);
    }

    /** kmalloc and then kfree of what it returned: the layout is as it was, every page
        has the frame it had, and no frame is lost but one for the heap's page table if
        that was missing. */
    method MallocAndFree(req: int) returns (r: Outcome)
      requires Valid() && CanExtend() && 0 <= req <= MAX_REQUEST
      modifies alloc, heap, heap.pager`phys, heap.pager`placement, heap.pager.bitmap.bits
      ensures r == Panic <==> old(Exhausted(req))
      ensures r.Ret? ==>
        && Valid() && alloc.layout == old(alloc.layout)
        && heap.Available() == old(heap.Available()) - (if old(Grows(alloc.State(), req) && !heap.HeapTable()) then 1 else 0)
        && (forall va :: va in old(heap.ledger.pages) ==>
              va in heap.ledger.pages && heap.ledger.pages[va] == old(heap.ledger.pages[va]))
        && (forall va :: va in heap.ledger.pages && F.PLACEMENT_END <= va ==> va in old(heap.ledger.pages))
    {
      hide F.Good, KernelHeap.Room, Sane, Image, AfterMalloc, AfterFree, Returned, InUse, Allocated, Kept,
           KeptBut, Backed, Grows, CanGrow, PagesFor, NoneEmpty, P.Used, F.Undisturbed, Choose, GapFor;
      ghost var s, l := alloc.State(), heap.ledger;
      GoodOf(alloc);
      ghost var i, k := Choose(s, req).index, GapFor(s, req);
      FreeUndoesMalloc(s, req);
      TripReleases(s, req);
      r := Kmalloc(req);
      if r == Panic { return; }
      var _ := Kfree(r.p, i, k);
      SamePages(s.layout, l, heap.ledger);
    }

    /** The processor finds the whole header exactly if it finds its first byte and its last,
        which are on one page or on two. */
    lemma ReadableIff(ptr: int)
      requires heap.Valid() && |alloc.mem| == Memory.MEMORY_SIZE
      requires MINOR_SIZE + ALIGNMENT + ALIGN_INFO <= ptr < Memory.MEMORY_SIZE
      ensures Readable(ptr) <==>
        && M.Walk(heap.pager.phys, heap.pager.root, ptr - ALIGN_INFO) != None
        && forall x :: Unaligned(alloc.mem, ptr) - MINOR_SIZE <= x < Unaligned(alloc.mem, ptr) ==> MappedAt(x)
    {
      hide M.Walk, M.FrameOf, M.DirIndex, M.TableIndex;
      var low := Unaligned(alloc.mem, ptr) - MINOR_SIZE;
      if Readable(ptr) {
        forall x | low <= x < low + MINOR_SIZE ensures MappedAt(x) { SamePage(x, low, low + MINOR_SIZE - 1); }
      }
    }

    // A byte in a range shorter than a page is on the page of its first byte or of its last.
    lemma SamePage(x: int, low: int, high: int)
      requires heap.Valid() && 0 <= low <= x <= high < low + PAGE_SIZE && high < WORD_RANGE
      requires MappedAt(low) && MappedAt(high)
      ensures MappedAt(x)
    {
      var y := if x / PAGE_SIZE == low / PAGE_SIZE then low else high;
      assert x / PAGE_SIZE == y / PAGE_SIZE;
      assert M.DirIndex(x) == M.DirIndex(y) by { assert forall z :: M.DirIndex(z) == z / PAGE_SIZE / M.ENTRIES; }
    }

    lemma LiveReadable(ptr: int, i: int, k: int)
      requires Valid() && Points(alloc.layout, i, k, ptr)
      ensures MINOR_SIZE + ALIGNMENT + ALIGN_INFO <= ptr < Memory.MEMORY_SIZE && Readable(ptr)
    {
      hide M.Walk, P.Used, MinorAt, MajorAt, F.Good, KernelHeap.Room, Image, InUse, Allocated, Backed, NoneEmpty, Unaligned;
      var b := alloc.layout[i];
      var c := b.chunks[k];
      GoodOf(alloc);
      HeadersOf(alloc.State(), alloc.mem, i, k);
      assert WellPlaced(b) && ChunkOk(b, c);
      MajorBytesMapped(this, i, ptr - ALIGN_INFO);
      MajorBytesMapped(this, i, c.addr);
      MajorBytesMapped(this, i, c.addr + MINOR_SIZE - 1);
    }

    // The major of a live pointer, and how long it is.
    method MajorOfPointer(ptr: int, ghost i: int, ghost k: int) returns (maj: int, pages: int)
      requires alloc.Valid() && (ptr == 0 || Points(alloc.layout, i, k, ptr) || Bogus(alloc.mem, ptr))
      ensures Points(alloc.layout, i, k, ptr) ==> maj == alloc.layout[i].base && pages == alloc.layout[i].pages
      ensures !Points(alloc.layout, i, k, ptr) ==> maj == 0
    {
      hide MinorAt, MajorAt;
      GoodOf(alloc);
      if Points(alloc.layout, i, k, ptr) { HeadersOf(alloc.State(), alloc.mem, i, k); }
      maj, pages := 0, 0;
      if ptr != 0 {
        var min := Unaligned(alloc.mem, ptr) - MINOR_SIZE;
        if MinorAt(alloc.mem, min).magic == LIBALLOC_MAGIC {
          maj := MinorAt(alloc.mem, min).block;
          pages := MajorAt(alloc.mem, maj).pages;
        }
      }
    }

    // The pages of major i, if a kfree of its minor k in state u released it, are given back.
    method GiveBack(maj: int, pages: int, released: bool, ghost u: HeapState, ghost i: int, ghost k: int)
      requires heap.Valid() && Good(u) && Listed(u.layout, i, k) && Backed(u.layout, heap.ledger)
      requires maj == u.layout[i].base && pages == u.layout[i].pages && released == (|u.layout[i].chunks| == 1)
      requires u.brk <= KHEAP_END
      modifies heap, heap.pager`phys, heap.pager.bitmap.bits
      ensures heap.Valid() && heap.HeapTable() == old(heap.HeapTable()) && heap.size == old(heap.size)
      ensures Backed(AfterFree(u, i, k).layout, heap.ledger) && heap.OnlyHeapChanged()
      ensures var b := u.layout[i]; var n := Released(b);
        && heap.Available() == old(heap.Available()) + n
        && heap.ledger == old(heap.ledger).(pages := old(heap.ledger).pages - KernelHeap.PageSet(b.base, n))
        && F.Undisturbed(old(heap.pager.State()), heap.pager.State(), heap.pager.root, b.base, b.base + n * PAGE_SIZE)
      ensures F.GivenBack(old(heap.pager.State()), old(heap.ledger), heap.pager.State(), heap.ledger, heap.pager.root)
    {
      hide F.Good, KernelHeap.Room, AfterFree, Backed, P.Used, F.Undisturbed, F.AllVacant, KernelHeap.Behind, F.PageSteps,
           F.Gives, F.GivenBack;
      F.NoPages(heap.pager.State(), heap.ledger, 0, heap.pager.root);
      ghost var t, l := heap.pager.State(), heap.ledger;
      ReleaseFacts(u, l, i, k);
      heap.Still(maj, maj);
      if released {
        var _ := heap.Free(maj, pages);
        F.GivenBackBy(t, l, maj, pages, heap.pager.State(), heap.ledger, heap.pager.root);
      }
      heap.Still(maj, maj);
      F.UndisturbedWider(t, heap.pager.State(), heap.pager.root,
                         maj, maj + Released(u.layout[i]) * PAGE_SIZE, KHEAP_START, KHEAP_END);
      FreeStaysBacked(u, i, k, l, heap.ledger);
    }

    // kfree, with the pages of a major it releases.
    method Kfree(ptr: int, ghost i: int, ghost k: int) returns (r: Outcome)
      requires Valid() && (ptr == 0 || Points(alloc.layout, i, k, ptr) || Bogus(alloc.mem, ptr))
      modifies alloc, heap, heap.pager`phys, heap.pager.bitmap.bits
      ensures old(Points(alloc.layout, i, k, ptr)) ==> r.Ret?
      ensures !old(Points(alloc.layout, i, k, ptr)) ==> (r == Panic <==> old(Faults(ptr)))
      ensures r.Ret? ==>
        && Valid() && alloc.interrupts == old(alloc.interrupts)
        && heap.HeapTable() == old(heap.HeapTable()) && heap.size == old(heap.size) && heap.OnlyHeapChanged() && Traced()
      ensures old(Points(alloc.layout, i, k, ptr)) ==>
        && alloc.State() == AfterFree(old(alloc.State()), i, k)
        && KeptBut(old(alloc.mem), alloc.mem, old(alloc.layout), old(alloc.brk), alloc.brk, i, k)
        && var b := old(alloc.layout)[i]; var n := Released(b);
        && heap.Available() == old(heap.Available()) + n
        && heap.ledger == old(heap.ledger).(pages := old(heap.ledger).pages - KernelHeap.PageSet(b.base, n))
        && F.Undisturbed(old(heap.pager.State()), heap.pager.State(), heap.pager.root, b.base, b.base + n * PAGE_SIZE)
      ensures old(Points(alloc.layout, i, k, ptr)) && |old(alloc.layout)[i].chunks| != 1 ==> Bogus(alloc.mem, ptr)
      ensures r.Ret? && !old(Points(alloc.layout, i, k, ptr)) ==>
        alloc.ListsUnchanged() && heap.pager.State() == old(heap.pager.State()) && heap.ledger == old(heap.ledger)
    {
      hide F.Good, KernelHeap.Room, Sane, Image, AfterFree, InUse, Allocated, BodiesKept, BodiesKeptBut, Confined, Backed,
           P.Used, F.Undisturbed, MinorAt, MajorAt, F.PageSteps, F.Takes, F.Paged, F.GivenBack, M.Walk, Unaligned, Readable;
      ghost var t, l, m := heap.pager.State(), heap.ledger, alloc.mem;
      F.NoPages(t, l, alloc.brk, heap.pager.root);
      ghost var s := alloc.State();
      ghost var live := Points(alloc.layout, i, k, ptr);
      GoodOf(alloc);
      if live {
        ReleaseFacts(s, heap.ledger, i, k);
        LiveReadable(ptr, i, k);
      }
      if ptr != 0 && !Readable(ptr) { return Panic; }
      var maj, pages := MajorOfPointer(ptr, i, k);
      var held := alloc.held;
      alloc.Kfree(ptr, i, k);
      heap.Still(KHEAP_START, KHEAP_END);
      if maj != 0 {
        GiveBack(maj, pages, alloc.held != held, s, i, k);
      }
      NothingStored(m, alloc.layout, alloc.brk);
      F.PagedBy(t, l, alloc.brk, 0, t, l, heap.pager.State(), heap.ledger, heap.pager.root);
      r := Ret(0);
    }

    // The pages of a new major, if a krealloc in state s, which goes on in state u, moves.
    method Acquire(brk: int, ghost s: HeapState, ghost size: int, ghost moves: bool, ghost u: HeapState) returns (ok: bool)
      requires heap.Valid() && CanExtend() && brk == KHEAP_START + heap.size == s.brk <= KHEAP_END
      requires Good(s) && 0 <= size && Backed(s.layout, heap.ledger)
      requires if moves then u == AfterMalloc(s, size) && (Grows(s, size) ==> CanGrow(s, size)) else u == s
      requires alloc.brk == brk + (if moves then Growth(s, size) else 0) * PAGE_SIZE == u.brk <= KHEAP_END
      modifies heap, heap.pager`phys, heap.pager`placement, heap.pager.bitmap.bits
      ensures ok <==> !moves || !Grows(s, size) || old(heap.Available()) >= old(heap.Wanted(PagesFor(size)))
      ensures ok ==>
        && heap.Valid() && CanExtend() && alloc.brk == KHEAP_START + heap.size && heap.OnlyHeapChanged()
        && Backed(u.layout, heap.ledger)
        && heap.Available() == old(heap.Available() - if moves && Grows(s, size) then heap.Wanted(PagesFor(size)) else 0)
        && heap.HeapTable() == (old(heap.HeapTable()) || (moves && Grows(s, size)))
        && F.PageSteps(old(heap.pager.State()), old(heap.ledger), F.Takes(brk, if moves then Growth(s, size) else 0),
                       heap.pager.State(), heap.ledger, heap.pager.root)
    {
      hide F.Good, KernelHeap.Room, KernelHeap.OnlyAdded, Sane, AfterMalloc, Backed, Grows, CanGrow, PagesFor,
           NoneEmpty, F.Undisturbed, P.Used, F.PageSteps, F.Takes;
      F.NoPages(heap.pager.State(), heap.ledger, brk, heap.pager.root);
      GrowthOf(s, size);
      heap.Still(KHEAP_START, KHEAP_END);
      ok := true;
      if alloc.brk != brk {
        ok := Extend(brk, s, size);
      } else if moves {
        MallocStaysBacked(s, size, heap.ledger, heap.ledger);
      }
    }

    // What a krealloc in state s means for the pages: those of a new major if it moves, and
    // those of major i if the kfree of its minor k, in state u, released it.
    method Follow(brk: int, held: int, maj: int, pages: int, ghost s: HeapState, ghost size: int, ghost moves: bool,
                  ghost frees: bool, ghost u: HeapState, ghost i: int, ghost k: int)
      returns (ok: bool)
      requires heap.Valid() && CanExtend() && brk == KHEAP_START + heap.size == s.brk <= KHEAP_END
      requires Good(s) && 0 <= size && Backed(s.layout, heap.ledger)
      requires if moves then u == AfterMalloc(s, size) && (Grows(s, size) ==> CanGrow(s, size)) else u == s
      requires alloc.brk == brk + (if moves then Growth(s, size) else 0) * PAGE_SIZE == u.brk <= KHEAP_END
      requires frees ==>
        Good(u) && Listed(u.layout, i, k) && maj == u.layout[i].base && pages == u.layout[i].pages > 0
      requires alloc.held == held + (alloc.brk - brk) - (if frees then Released(u.layout[i]) else 0) * PAGE_SIZE
      modifies heap, heap.pager`phys, heap.pager`placement, heap.pager.bitmap.bits
      ensures ok <==> !moves || !Grows(s, size) || old(heap.Available()) >= old(heap.Wanted(PagesFor(size)))
      ensures ok ==>
        && heap.Valid() && CanExtend() && alloc.brk == KHEAP_START + heap.size && heap.OnlyHeapChanged()
        && Backed((if frees then AfterFree(u, i, k) else u).layout, heap.ledger)
        && heap.Available() == old(heap.Available() - if moves && Grows(s, size) then heap.Wanted(PagesFor(size)) else 0)
          + (if frees then Released(u.layout[i]) else 0)
        && heap.HeapTable() == (old(heap.HeapTable()) || (moves && Grows(s, size)))
        && F.Paged(old(heap.pager.State()), old(heap.ledger), brk, if moves then Growth(s, size) else 0,
                   heap.pager.State(), heap.ledger, heap.pager.root)
    {
      ghost var n := if moves then Growth(s, size) else 0;
      hide F.Good, KernelHeap.Room, Sane, AfterMalloc, AfterFree, Backed, Grows, CanGrow, PagesFor, NoneEmpty,
           F.Undisturbed, P.Used, F.PageSteps, F.Takes, F.Paged, F.GivenBack, Growth;
      ghost var t, l := heap.pager.State(), heap.ledger;
      heap.Still(KHEAP_START, KHEAP_END);
      ok := Acquire(brk, s, size, moves, u);
      if !ok { return; }
      ghost var t1, l1 := heap.pager.State(), heap.ledger;
      F.NoPages(t1, l1, brk, heap.pager.root);
      heap.Still(KHEAP_START, KHEAP_END);
      if alloc.held != held + (alloc.brk - brk) {
        GiveBack(maj, pages, true, u, i, k);
      } else if frees {
        FreeStaysBacked(u, i, k, heap.ledger, heap.ledger);
      }
      heap.Still(KHEAP_START, KHEAP_END);
      F.UndisturbedAgain(t, t1, heap.pager.State(), heap.pager.root, KHEAP_START, KHEAP_END);
      F.PagedBy(t, l, brk, n, t1, l1, heap.pager.State(), heap.ledger, heap.pager.root);
    }

    // The frames krealloc asks for, and those it gives back.
    ghost function Asked(ptr: int, size: int, i: int, k: int): int
      requires Valid()
      reads alloc, heap, heap.pager, heap.pager.bitmap, heap.pager.bitmap.bits
    {
      if alloc.Allocates(ptr, size, i, k) && Grows(alloc.State(), size) then heap.Wanted(PagesFor(size)) else 0
    }

    ghost function ToGive(ptr: int, size: int, i: int, k: int): int
      requires Valid()
      reads alloc, heap, heap.pager, heap.pager.bitmap, heap.pager.bitmap.bits
    {
      var s := alloc.State();
      if !Points(alloc.layout, i, k, ptr) then 0
      else if size == 0 then Released(s.layout[i])
      else if !alloc.Allocates(ptr, size, i, k) then 0
      else
        MallocKeepsMinors(s, size, i, k);
        Released(AfterMalloc(s, size).layout[i])
    }

    // krealloc, with the pages it asks for and those of a major it releases.
    method Krealloc(ptr: int, size: int, ghost i: int, ghost k: int) returns (r: Outcome)
      requires Valid() && CanExtend() && 0 <= size <= MAX_REQUEST
      requires ptr == 0 || Points(alloc.layout, i, k, ptr) || Bogus(alloc.mem, ptr)
      modifies alloc, heap, heap.pager`phys, heap.pager`placement, heap.pager.bitmap.bits
      ensures r == Panic <==>
        if old(alloc.Allocates(ptr, size, i, k)) then old(Exhausted(size))
        else !old(Points(alloc.layout, i, k, ptr)) && old(Faults(ptr))
      ensures r.Ret? ==>
        && Valid() && CanExtend() && alloc.interrupts == old(alloc.interrupts) && heap.OnlyHeapChanged()
        && alloc.Reallocated(ptr, size, i, k, r.p)
        && heap.Available() == old(heap.Available() - Asked(ptr, size, i, k) + ToGive(ptr, size, i, k))
        && heap.HeapTable() == old(heap.HeapTable() || (alloc.Allocates(ptr, size, i, k) && Grows(alloc.State(), size)))
        && Traced()
    {
      hide F.Good, KernelHeap.Room, KernelHeap.OnlyAdded, Sane, Image, AfterMalloc, AfterFree, AfterMove, Returned, InUse,
           Allocated, BodiesKept, BodiesKeptBut, Confined, MovedBytes, Backed, Grows, F.PageSteps, F.Takes, F.Paged, CanGrow,
           PagesFor, NoneEmpty, Resized, P.Used, F.Undisturbed, MinorAt, MajorAt, Unaligned, M.Walk, Readable, MappedAt,
           PayloadOf, MovedTo, Released, Growth;
      ghost var s, l := alloc.State(), heap.ledger;
      ghost var live, moves, m := Points(alloc.layout, i, k, ptr), alloc.Allocates(ptr, size, i, k), alloc.mem;
      GoodOf(alloc);
      GrowthOf(s, size);
      if live {
        ReleaseFacts(s, l, i, k);
        ResizeFacts(s, l, i, k, size);
        LiveReadable(ptr, i, k);
      }
      if ptr != 0 && !Readable(ptr) { return Panic; }
      var maj, pages := MajorOfPointer(ptr, i, k);
      var brk, held := alloc.brk, alloc.held;
      r := alloc.Krealloc(ptr, size, true, i, k);
      if r == Panic { return; }
      GoodOf(alloc);
      ghost var u, k' := s, k;
      if moves {
        MallocFacts(s, size);
        if live { MoveFacts(s, size, i, k); }
        u, k' := AfterMalloc(s, size), MovedTo(s, size, i, k);
      }
      var ok := Follow(brk, held, maj, pages, s, size, moves, live && (moves || size == 0), u, i, k');
      if !ok { return Panic; }
      NothingStored(m, s.layout, s.brk);
      if live && !moves && size != 0 { ResizeFacts(s, heap.ledger, i, k, size); }
    }

    // A caller's store to byte at of the payload it has at ptr.
    method Store(ptr: int, at: int, b: Memory.Byte, ghost i: int, ghost k: int)
      requires Valid() && Points(alloc.layout, i, k, ptr) && 0 <= at < alloc.layout[i].chunks[k].req
      modifies alloc`mem
      ensures Valid() && 0 <= ptr + at < |old(alloc.mem)| && alloc.mem == old(alloc.mem)[ptr + at := b] && Traced()
    {
      hide F.Good, KernelHeap.Room, Image, InUse, Allocated, Backed, NoneEmpty, PayloadOf, Sane, BodiesKeptBut, Confined,
           F.PageSteps, F.Takes, F.Paged, F.GivenBack;
      F.NoPages(heap.pager.State(), heap.ledger, alloc.brk, heap.pager.root);
      Grew(heap.pager.State(), heap.ledger, alloc.brk, 0, heap.pager.State(), heap.ledger, heap.pager.root);
      UnalignUndoesAlign(alloc.State(), alloc.mem, i, k);
      PayloadWrite(alloc.State(), alloc.mem, alloc.mem[ptr + at := b], i, k);
      alloc.mem := alloc.mem[ptr + at := b];
    }
  }

  lemma Grew(s: P.PageState, l: F.Ledger, brk: int, n: int, r: P.PageState, k: F.Ledger, root: int)
    requires 0 <= n && F.PageSteps(s, l, F.Takes(brk, n), r, k, root)
    ensures F.Paged(s, l, brk, n, r, k, root) && n * PAGE_SIZE / PAGE_SIZE == n
  {
    F.NoPages(r, k, brk, root);
    F.PagedBy(s, l, brk, n, r, k, r, k, root);
  }

  lemma NothingStored(m: seq<Memory.Byte>, l: seq<Block>, brk: int)
    ensures Confined(m, m, l, brk, brk)
  {
  }

  // What is given back of what was asked for.
  lemma TripReleases(s: HeapState, req: int)
    requires Good(s) && 0 <= req
    ensures var l := AfterMalloc(s, req).layout; var i := Choose(s, req).index;
      0 <= i < |l| && Released(l[i]) == Growth(s, req) && (Grows(s, req) ==> l[i].base == s.brk)
  {
    hide Choose, FinalBet;
    RoomIsSound(s, req);
  }

  lemma SamePages(l: seq<Block>, k: F.Ledger, k': F.Ledger)
    requires Backed(l, k) && Backed(l, k')
    ensures forall va :: F.PLACEMENT_END <= va ==> (va in k.pages <==> va in k'.pages)
  {
    hide PageOfMajor;
  }

  // -------------------------------------------------------- live bytes in memory

  // Every byte of a major is mapped, into the frame the ledger has for its page.
  lemma MajorBytesMapped(m: KernelMemory, i: int, x: int)
    requires m.Valid() && 0 <= i < |m.alloc.layout| && m.alloc.layout[i].base <= x < Limit(m.alloc.layout[i])
    ensures M.Address(x) && 0 <= m.heap.pager.root < M.FRAMES && M.IsPhys(m.heap.pager.phys)
    ensures var page := x / PAGE_SIZE * PAGE_SIZE;
      && page in m.heap.ledger.pages
      && M.Walk(m.heap.pager.phys, m.heap.pager.root, x)
        == M.KernelPage(m.heap.ledger.pages[page] * PAGE_SIZE + x % PAGE_SIZE)
  {
    hide M.Walk, P.Used;
    var l, page := m.alloc.layout, x / PAGE_SIZE * PAGE_SIZE;
    var b := l[i];
    assert WellPlaced(b) && Within(b, m.alloc.brk);
    PageInMajor(b, x);
    assert PageOfMajor(l, page);
    F.WalkOffset(m.heap.pager.State(), m.heap.pager.root, page, x % PAGE_SIZE);
  }

  /** Every byte of a live payload is mapped ... */
  lemma LiveBytesMapped(m: KernelMemory, i: int, k: int, x: int)
    requires m.Valid() && Listed(m.alloc.layout, i, k) && InPayload(m.alloc.layout[i].chunks[k], x)
    ensures M.Address(x) && 0 <= m.heap.pager.root < M.FRAMES && M.IsPhys(m.heap.pager.phys)
    ensures var page := x / PAGE_SIZE * PAGE_SIZE;
      && page in m.heap.ledger.pages
      && M.Walk(m.heap.pager.phys, m.heap.pager.root, x)
        == M.KernelPage(m.heap.ledger.pages[page] * PAGE_SIZE + x % PAGE_SIZE)
  {
    hide M.Walk, P.Used;
    var b := m.alloc.layout[i];
    assert WellPlaced(b) && ChunkOk(b, b.chunks[k]);
    MajorBytesMapped(m, i, x);
  }

  lemma PageInMajor(b: Block, x: int)
    requires WellPlaced(b) && b.base <= x < Limit(b)
    ensures var page := x / PAGE_SIZE * PAGE_SIZE; page % PAGE_SIZE == 0 && b.base <= page < Limit(b)
  {
  }

  /** ... and no two of them are the same byte of physical memory. */
  lemma LiveBytesApart(m: KernelMemory, i: int, k: int, x: int, j: int, n: int, y: int)
    requires m.Valid() && x != y
    requires Listed(m.alloc.layout, i, k) && InPayload(m.alloc.layout[i].chunks[k], x)
    requires Listed(m.alloc.layout, j, n) && InPayload(m.alloc.layout[j].chunks[n], y)
    ensures M.Address(x) && M.Address(y) && 0 <= m.heap.pager.root < M.FRAMES && M.IsPhys(m.heap.pager.phys)
    ensures M.Walk(m.heap.pager.phys, m.heap.pager.root, x) != M.Walk(m.heap.pager.phys, m.heap.pager.root, y)
  {
    hide M.Walk, P.Used;
    LiveBytesMapped(m, i, k, x);
    LiveBytesMapped(m, j, n, y);
  }

  // What krealloc to a larger size does in between.
  lemma MoveFacts(s: HeapState, req: int, i: int, k: int)
    requires Good(s) && 0 <= req && Listed(s.layout, i, k) && (Grows(s, req) ==> CanGrow(s, req))
    ensures var u := AfterMalloc(s, req); var k' := MovedTo(s, req, i, k);
      && Good(u) && Listed(u.layout, i, k') && AfterMove(s, req, i, k) == AfterFree(u, i, k')
      && u.layout[i].base == s.layout[i].base && u.layout[i].pages == s.layout[i].pages
      && Allocated(AfterFree(u, i, k').layout) == Allocated(u.layout) - Released(u.layout[i]) * PAGE_SIZE
      && Allocated(u.layout) == Allocated(s.layout) + Growth(s, req) * PAGE_SIZE
      && AfterFree(u, i, k').brk == u.brk
  {
    hide Choose, GapFor, FinalBet;
    MallocKeepsGood(s, req);
    MallocKeepsMinors(s, req, i, k);
    TotalsOfRelease(AfterMalloc(s, req).layout, i, MovedTo(s, req, i, k));
    RoomIsSound(s, req);
    TotalsOfPlace(Room(s, req), Choose(s, req).index, GapFor(s, req), req);
    TotalsOfConcat(s.layout, [Fresh(s.brk, req)]);
  }

  // The pages given back with the last minor of b.
  function Released(b: Block): int { if |b.chunks| == 1 then b.pages else 0 }

  // What kfree finds in memory for a live minor.
  lemma HeadersOf(s: HeapState, m: seq<Memory.Byte>, i: int, k: int)
    requires Good(s) && |m| == Memory.MEMORY_SIZE && Image(m, s.layout) && Listed(s.layout, i, k)
    ensures var b := s.layout[i]; var c := b.chunks[k];
      && MINOR_SIZE + ALIGNMENT + ALIGN_INFO <= PayloadOf(c.addr) < Memory.MEMORY_SIZE
      && Unaligned(m, PayloadOf(c.addr)) - MINOR_SIZE == c.addr && 0 <= c.addr && c.addr + MINOR_SIZE <= |m|
      && MinorAt(m, c.addr).magic == LIBALLOC_MAGIC && MinorAt(m, c.addr).block == b.base
      && 0 <= b.base && b.base + MAJOR_SIZE <= |m| && MajorAt(m, b.base).pages == b.pages
  {
    hide MinorAt, MajorAt;
    UnalignUndoesAlign(s, m, i, k);
    MajorHeader(s, m, i);
    MinorHeader(s, m, i, k);
  }

  // The pages of a major that may be released.
  lemma ReleaseFacts(s: HeapState, l: F.Ledger, i: int, k: int)
    requires Good(s) && Listed(s.layout, i, k) && Backed(s.layout, l)
    ensures var b := s.layout[i];
      && KHEAP_START <= b.base && Limit(b) <= s.brk && b.base % PAGE_SIZE == 0 && b.pages > 0
      && KernelHeap.PagesAt(l, b.base, b.pages)
      && AfterFree(s, i, k).brk == s.brk && PayloadOf(b.chunks[k].addr) != 0
      && Allocated(AfterFree(s, i, k).layout) == Allocated(s.layout) - Released(b) * PAGE_SIZE
  {
    var b := s.layout[i];
    TotalsOfRelease(s.layout, i, k);
    assert WellPlaced(b) && Within(b, s.brk);
    forall va | b.base <= va < b.base + b.pages * PAGE_SIZE && va % PAGE_SIZE == b.base % PAGE_SIZE ensures va in l.pages {
      assert PageOfMajor(s.layout, va);
    }
  }

  lemma ResizeFacts(s: HeapState, l: F.Ledger, i: int, k: int, req: int)
    requires Listed(s.layout, i, k) && Backed(s.layout, l)
    ensures Backed(Resized(s.layout, i, k, req), l) && Allocated(Resized(s.layout, i, k, req)) == Allocated(s.layout)
  {
    hide PageOfMajor;
    var b := s.layout[i];
    var b' := b.(chunks := b.chunks[k := b.chunks[k].(req := req)]);
    TotalsOfUpdate(s.layout, i, b');
    forall va ensures PageOfMajor(s.layout[i := b'], va) <==> PageOfMajor(s.layout, va) { PagesOfUpdate(s.layout, i, b', va); }
  }

  lemma MallocFacts(s: HeapState, req: int)
    requires Good(s) && 0 <= req
    ensures Allocated(AfterMalloc(s, req).layout) == Allocated(s.layout) + Growth(s, req) * PAGE_SIZE
  {
    hide Choose, GapFor, FinalBet;
    RoomIsSound(s, req);
    TotalsOfPlace(Room(s, req), Choose(s, req).index, GapFor(s, req), req);
    TotalsOfConcat(s.layout, [Fresh(s.brk, req)]);
  }

  lemma GoodOf(a: Liballoc)
    requires a.Valid()
    ensures Good(a.State()) && BetListed(a.layout, a.bestBet) && a.brk <= KHEAP_END
  {
  }

  lemma GrowthOf(s: HeapState, req: int)
    requires Good(s) && 0 <= req
    ensures PagesFor(req) > 0 && AfterMalloc(s, req).brk == s.brk + Growth(s, req) * PAGE_SIZE
    ensures CanGrow(s, req) <==> KernelHeap.Fits(s.brk - KHEAP_START, PagesFor(req))
  {
  }

  // After liballoc_alloc the ledger has just the new pages more, above the placement heap.
  lemma PagesAdded(s: P.PageState, l: F.Ledger, r: P.PageState, k: F.Ledger, root: int, start: int, n: int)
    requires F.Good(s, root, l) && F.Good(r, root, k) && KernelHeap.OnlyAdded(s, l, r, k, root, start, start + n * PAGE_SIZE)
    requires KernelHeap.PagesAt(k, start, n) && start % PAGE_SIZE == 0 && F.PLACEMENT_END <= start
    requires r.placement <= F.PLACEMENT_END
    ensures forall va :: va in k.pages && F.PLACEMENT_END <= va <==>
      (va in l.pages && F.PLACEMENT_END <= va) || (va % PAGE_SIZE == 0 && start <= va < start + n * PAGE_SIZE)
  {
    forall va | va in k.pages ensures va % PAGE_SIZE == 0 {
      assert F.PageOwned(r, root, va, k.pages[va]);
    }
  }
}
