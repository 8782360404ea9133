/** liballoc_alloc and liballoc_free: the contiguous kernel heap on top of the frames. */
module KernelHeap {
  import opened Machine
  import opened Bitmaps
  import opened Mmu
  import opened Pages
  import opened Paging
  import opened Frames

  /** The free addresses of a run: the rest of the placement heap and everything from
      top to the end of the kernel heap. */
  ghost predicate Room(s: PageState, root: int, top: int)
    requires WellFormed(s, root)
  {
    && UPPER <= s.placement <= PLACEMENT_END && HasTable(s, root, UPPER)
    && AllVacant(s, root, s.placement, PLACEMENT_END)
    && AllVacant(s, root, top, KHEAP_END)
  }

  class Heap {
    const pager: Pager
    var size: int                 // kheap.size
    ghost var ledger: Ledger

    ghost predicate Valid()
      reads this, pager, pager.bitmap, pager.bitmap.bits
    {
      && Good(pager.State(), pager.root, ledger)
      && 0 <= size <= KHEAP_END - KHEAP_START && size % PAGE_SIZE == 0
      && Room(pager.State(), pager.root, KHEAP_START + size)
      && forall va :: va in ledger.pages && PLACEMENT_END <= va ==> KHEAP_START <= va < KHEAP_START + size
    }

    // kernel_heap_init, once the page frames are accounted for.
    constructor (pager: Pager, ghost ledger: Ledger)
      requires Good(pager.State(), pager.root, ledger) && Room(pager.State(), pager.root, KHEAP_START)
      requires forall va :: va in ledger.pages ==> va < PLACEMENT_END
      ensures this.pager == pager && this.ledger == ledger && size == 0 && Valid()
    {
      this.pager := pager;
      this.ledger := ledger;
      size := 0;
    }

    // The heap region has its page table.
    ghost predicate HeapTable()
      requires Valid()
      reads this, pager, pager.bitmap, pager.bitmap.bits
    {
      HasTable(pager.State(), pager.root, KHEAP_START)
    }

    // The frames n more heap pages take: one each, and one for the missing table.
    ghost function Wanted(n: int): int
      requires Valid()
      reads this, pager, pager.bitmap, pager.bitmap.bits
    {
      if HeapTable() then n else n + 1
    }

    ghost function Available(): int
      requires Valid()
      reads this, pager, pager.bitmap, pager.bitmap.bits
    {
      |FreeFrames(pager.State())|
    }

    lemma Still(lo: int, hi: int)
      requires Valid()
      ensures WellFormed(pager.State(), pager.root)
      ensures Undisturbed(pager.State(), pager.State(), pager.root, lo, hi)
    {
    }

    // What liballoc_alloc and liballoc_free leave alone lies outside the kernel heap.
    twostate predicate OnlyHeapChanged()
      requires old(Valid()) && Valid()
      reads this, pager, pager.bitmap, pager.bitmap.bits
    {
      && Undisturbed(old(pager.State()), pager.State(), pager.root, KHEAP_START, KHEAP_END)
      && ledger.reserved == old(ledger.reserved)
    }

    lemma PlacementBound()
      requires Valid()
      ensures pager.placement <= PLACEMENT_END
    {
    }

    // Pages were handed out in [lo, hi), and for the placement heap; nothing else changed.
    twostate predicate Grown(lo: int, hi: int)
      requires old(Valid()) && Valid()
      reads this, pager, pager.bitmap, pager.bitmap.bits
    {
      OnlyAdded(old(pager.State()), old(ledger), pager.State(), ledger, pager.root, lo, hi)
    }

    // One round of the loop of liballoc_alloc.
    method MapOne() returns (ok: bool)
      requires Valid() && KHEAP_START + size < KHEAP_END
      requires HeapTable() || pager.placement < PLACEMENT_END
      modifies this, pager`phys, pager`placement, pager.bitmap.bits
      ensures ok <==> old(Available()) >= old(Wanted(1))
      ensures ok ==>
        && Valid() && size == old(size) + PAGE_SIZE && HeapTable()
        && Available() == old(Available()) - old(Wanted(1))
        && KHEAP_START + old(size) in ledger.pages && Grown(KHEAP_START + old(size), KHEAP_START + size)
        && pager.placement == old(pager.placement) + (if old(HeapTable()) then 0 else PAGE_SIZE)
        && PageStepped(old(pager.State()), old(ledger), Take(KHEAP_START + old(size)), pager.State(), ledger, pager.root)
    {
      hide Good, Room, Walk, NextFrame, IsSet, OutOfFrames, WithTable, AfterAlloc, AfterMap, CanMap,
           FreeFrames, WithNewPage, AfterMapNew, Sane;
      ghost var s, l := pager.State(), ledger;
      var va := KHEAP_START + size;
      HeapStepReady(s, pager.root, l, va);
      HeapStepCounts(s, pager.root, l, va);
      var frame;
      ok, frame := pager.PageAlloc(NO_HOLE);
      if !ok { return; }
      ok := pager.PageMap(frame * PAGE_SIZE, va, true, false, NO_HOLE);
      if !ok { return; }
      HeapStepKeeps(s, pager.root, l, va);
      assert pager.State() == AfterMapNew(s, pager.root, va) by { MapNewIs(s, pager.root, va); }
      NewPageAdds(s, pager.root, l, va);
      size := size + PAGE_SIZE;
      ledger := WithNewPage(s, pager.root, l, va);
    }

    /** liballoc_alloc: contiguous pages, at addresses never handed out before, each
        with a frame that was free.  It fails exactly if the frames run out or the heap
        would outgrow its maximum. */
    method Alloc(pages: nat) returns (ok: bool, start: int)
      requires Valid()
      requires HeapTable() || pager.placement < PLACEMENT_END
      modifies this, pager`phys, pager`placement, pager.bitmap.bits
      ensures pages == 0 ==>
        ok && start == 0 && Valid() && pager.State() == old(pager.State()) && size == old(size) && ledger == old(ledger)
      ensures pages != 0 ==> (ok <==> Fits(old(size), pages) && old(Available()) >= old(Wanted(pages)))
      ensures ok && pages != 0 ==>
        && Valid() && start == KHEAP_START + old(size) && size == old(size) + pages * PAGE_SIZE
        && Available() == old(Available()) - old(Wanted(pages))
        && PagesAt(ledger, start, pages) && HeapTable() && Grown(start, start + pages * PAGE_SIZE)
        && pager.placement == old(pager.placement) + (if old(HeapTable()) then 0 else PAGE_SIZE)
        && (forall va :: va in ledger.pages && va !in old(ledger.pages) ==> !Used(old(pager.State()), ledger.pages[va]))
        && PageSteps(old(pager.State()), old(ledger), Takes(start, pages), pager.State(), ledger, pager.root)
    {
      hide Good, Room, FreeFrames, Walk, IsSet, Sane, OnlyAdded, PageStepped, PageSteps, Takes;
      if pages == 0 { return true, 0; }
      start := KHEAP_START + size;
      NothingAdded(pager.State(), ledger, pager.root, start);
      NoSteps(pager.State(), ledger, pager.root, start, 0);
      var left := pages;
      ok := true;
      while left > 0
        invariant ok && 0 <= left <= pages && Valid() && size == old(size) + (pages - left) * PAGE_SIZE
        invariant HeapTable() || pager.placement < PLACEMENT_END
        invariant Available() - Wanted(left) == old(Available()) - old(Wanted(pages))
        invariant HeapTable() == (left < pages || old(HeapTable()))
        invariant PagesAt(ledger, start, pages - left) && Grown(start, start + (pages - left) * PAGE_SIZE)
        invariant pager.placement == old(pager.placement) + (if left == pages || old(HeapTable()) then 0 else PAGE_SIZE)
        invariant PageSteps(old(pager.State()), old(ledger), Takes(start, pages - left), pager.State(), ledger, pager.root)
      {
        // The source maps one page too many before it panics; it panics all the same.
        if KHEAP_START + size == KHEAP_END { return false, 0; }
        ghost var s, l := pager.State(), ledger;
        ok := MapOne();
        if !ok { return; }
        AddedTwice(old(pager.State()), old(ledger), s, l, pager.State(), ledger, pager.root,
                   start, start + (pages - left) * PAGE_SIZE, start + (pages - left + 1) * PAGE_SIZE);
        PagesAtGrows(s, l, pager.State(), ledger, pager.root, start, pages - left);
        OneStepMore(old(pager.State()), old(ledger), Takes(start, pages - left), s, l,
                    Take(start + (pages - left) * PAGE_SIZE), pager.State(), ledger, pager.root);
        TakesMore(start, pages - left);
        left := left - 1;
      }
      NewFramesWereFree(old(pager.State()), old(ledger), pager.State(), ledger, pager.root);
    }

    // One round of the loop of liballoc_free, for the page at va.  The pages from there
    // to end are unmapped already.
    method UnmapOne(va: int, ghost end: int) returns (ok: bool)
      requires Valid() && va in ledger.pages && KHEAP_START <= va
      requires AllVacant(pager.State(), pager.root, va + PAGE_SIZE, end)
      modifies this, pager`phys, pager.bitmap.bits
      ensures ok && Valid() && size == old(size) && ledger == WithoutPage(old(ledger), va)
      ensures Available() == old(Available()) + 1 && HeapTable() == old(HeapTable())
      ensures AllVacant(pager.State(), pager.root, va, end)
      ensures Undisturbed(old(pager.State()), pager.State(), pager.root, va, va + PAGE_SIZE)
      ensures PageStepped(old(pager.State()), old(ledger), Give(va), pager.State(), ledger, pager.root)
    {
      hide Good, Room, IsSet, AfterUnmap, WithClear, Walk, TablesApart, Exact, AllVacant, Undisturbed, FreeFrames;
      ghost var s, l, f := pager.State(), ledger, ledger.pages[va];
      UnmapStep(s, pager.root, l, va, KHEAP_START + size, end);
      VirtToPhysIsWalk(pager.phys, pager.root, va);
      var pa := VirtToPhys(pager.phys, pager.root, va).value;
      ok := pager.PageUnmap(va);
      pager.PageFree(pa / PAGE_SIZE);
      ledger := WithoutPage(ledger, va);
      assert pager.State() == AfterUnmapFree(s, pager.root, va, f);
    }

    /** liballoc_free: the pages of the block, and no others, are unmapped, and exactly
        the frames behind them are freed.  Their addresses are not used again. */
    method Free(block: int, pages: nat) returns (status: int)
      requires Valid() && KHEAP_START <= block && block % PAGE_SIZE == 0 && PagesAt(ledger, block, pages)
      modifies this, pager`phys, pager.bitmap.bits
      ensures Valid() && size == old(size) && Available() == old(Available()) + pages && HeapTable() == old(HeapTable())
      ensures status == if pages == 0 then -1 else 0
      ensures ledger == old(ledger).(pages := old(ledger).pages - PageSet(block, pages))
      ensures AllVacant(pager.State(), pager.root, block, block + pages * PAGE_SIZE)
      ensures Undisturbed(old(pager.State()), pager.State(), pager.root, block, block + pages * PAGE_SIZE)
      ensures forall f :: Used(pager.State(), f) <==>
        Used(old(pager.State()), f) && !Behind(old(ledger), PageSet(block, pages), f)
      ensures PageSteps(old(pager.State()), old(ledger), Gives(block, pages, pages), pager.State(), ledger, pager.root)
    {
      hide Room, Walk, Good, AllVacant, Behind, Undisturbed, FreeFrames, PageStepped, PageSteps, Gives;
      ghost var end := block + pages * PAGE_SIZE;
      Still(block, end);
      NoSteps(pager.State(), ledger, pager.root, block, pages);
      NothingVacant(pager.State(), pager.root, end);
      NothingDisturbed(pager.State(), pager.root, end);
      if pages == 0 {
        assert ledger.pages - PageSet(block, 0) == ledger.pages;
        status := -1;
      } else {
        var left := pages;
        while left > 0
          invariant 0 <= left <= pages && Valid() && size == old(size)
          invariant WellFormed(pager.State(), pager.root)
          invariant Available() == old(Available()) + pages - left && HeapTable() == old(HeapTable())
          invariant ledger == old(ledger).(pages := old(ledger).pages - PageSet(block + left * PAGE_SIZE, pages - left))
          invariant AllVacant(pager.State(), pager.root, block + left * PAGE_SIZE, end)
          invariant Undisturbed(old(pager.State()), pager.State(), pager.root, block + left * PAGE_SIZE, end)
          invariant PageSteps(old(pager.State()), old(ledger), Gives(block, pages, pages - left), pager.State(), ledger,
                              pager.root)
        {
          var va := block + (left - 1) * PAGE_SIZE;
          Still(block, end);
          assert va in old(ledger).pages;
          LowerPageSet(va, pages - left);
          ghost var before, s := ledger, pager.State();
          var ok := UnmapOne(va, end);
          Still(block, end);
          UndisturbedTwice(old(pager.State()), s, pager.State(), pager.root, va, va + PAGE_SIZE, end);
          OneStepMore(old(pager.State()), old(ledger), Gives(block, pages, pages - left), s, before, Give(va),
                      pager.State(), ledger, pager.root);
          GivesMore(block, pages, pages - left);
          assert WithoutPage(before, va).pages == old(ledger).pages - PageSet(va, pages - left + 1);
          left := left - 1;
        }
        status := 0;
      }
      OnlyTheirFrames(old(pager.State()), old(ledger), pager.State(), pager.root, PageSet(block, pages));
    }
  }

  lemma NoSteps(s: PageState, l: Ledger, root: int, start: int, n: int)
    ensures PageSteps(s, l, Takes(start, 0), s, l, root) && PageSteps(s, l, Gives(start, n, 0), s, l, root)
  {
  }

  lemma NothingDisturbed(s: PageState, root: int, at: int)
    requires WellFormed(s, root)
    ensures Undisturbed(s, s, root, at, at)
  {
  }

  // From s and l to r and k, pages were handed out in [lo, hi), and for the placement
  // heap; every other page keeps its frame, and every other address its translation.
  ghost predicate OnlyAdded(s: PageState, l: Ledger, r: PageState, k: Ledger, root: int, lo: int, hi: int)
    requires IsPhys(s.ph) && IsPhys(r.ph) && 0 <= root < FRAMES
  {
    && k.reserved == l.reserved
    && (forall va :: va in l.pages ==> va in k.pages && k.pages[va] == l.pages[va])
    && (forall va :: va in k.pages && va !in l.pages ==> lo <= va < hi || s.placement <= va < r.placement)
    && Undisturbed(s, r, root, lo, hi)
  }

  lemma NothingAdded(s: PageState, l: Ledger, root: int, at: int)
    requires Good(s, root, l)
    ensures OnlyAdded(s, l, s, l, root, at, at)
  {
  }

  lemma AddedInHeap(s: PageState, l: Ledger, r: PageState, k: Ledger, root: int, lo: int, hi: int)
    requires Good(s, root, l) && Good(r, root, k) && OnlyAdded(s, l, r, k, root, lo, hi)
    requires KHEAP_START <= lo && hi <= KHEAP_END
    ensures Undisturbed(s, r, root, KHEAP_START, KHEAP_END) && k.reserved == l.reserved
  {
    hide Walk, Exact, TablesApart;
  }

  lemma AddedMore(s: PageState, l: Ledger, r: PageState, k: Ledger, root: int, lo: int, hi: int, hi': int)
    requires Good(s, root, l) && Good(r, root, k) && OnlyAdded(s, l, r, k, root, lo, hi) && hi <= hi'
    ensures OnlyAdded(s, l, r, k, root, lo, hi')
  {
    hide Walk, Exact, TablesApart;
  }

  lemma AddedTwice(s: PageState, l: Ledger, r: PageState, k: Ledger, t: PageState, m: Ledger, root: int,
                   lo: int, mid: int, hi: int)
    requires Good(s, root, l) && Good(r, root, k) && Good(t, root, m) && lo <= mid <= hi
    requires OnlyAdded(s, l, r, k, root, lo, mid) && OnlyAdded(r, k, t, m, root, mid, hi)
    ensures OnlyAdded(s, l, t, m, root, lo, hi)
  {
    hide Walk, Exact, TablesApart;
    UndisturbedTwice(s, r, t, root, lo, mid, hi);
  }

  lemma NothingVacant(s: PageState, root: int, at: int)
    requires WellFormed(s, root)
    ensures AllVacant(s, root, at, at)
  {
  }

  // Frame f is behind one of the given pages.
  ghost predicate Behind(l: Ledger, pages: set<int>, f: int) {
    exists va :: va in pages && va in l.pages && l.pages[va] == f
  }

  lemma OnlyTheirFrames(s: PageState, l: Ledger, s': PageState, root: int, pages: set<int>)
    requires Good(s, root, l) && Good(s', root, l.(pages := l.pages - pages))
    ensures forall f :: Used(s', f) <==> Used(s, f) && !Behind(l, pages, f)
  {
    var l' := l.(pages := l.pages - pages);
    forall f ensures Used(s', f) <==> Used(s, f) && !Behind(l, pages, f) {
      assert Used(s, f) <==> f in l.reserved || HandedOut(l, f);
      assert Used(s', f) <==> f in l.reserved || HandedOut(l', f);
      if HandedOut(l, f) {
        var va :| va in l.pages && l.pages[va] == f;
        assert va in pages || va in l'.pages;
      }
    }
  }

  // The addresses of n pages from start on.
  ghost function PageSet(start: int, n: int): set<int> {
    set va | start <= va < start + n * PAGE_SIZE && va % PAGE_SIZE == start % PAGE_SIZE
  }

  lemma LowerPageSet(va: int, n: int)
    requires 0 <= n && va % PAGE_SIZE == 0
    ensures PageSet(va, n + 1) == PageSet(va + PAGE_SIZE, n) + {va}
  {
  }

  lemma OwnPage(s: PageState, root: int, l: Ledger, va: int)
    requires Good(s, root, l) && va in l.pages && KHEAP_START <= va
    ensures var f := l.pages[va];
      && Sane(s, root, NO_HOLE) && Address(va) && va < TABLE_WINDOW && va % PAGE_SIZE == 0 && 0 <= f < MAX_FRAMES
      && Walk(s.ph, root, va) == KernelPage(f * PAGE_SIZE) && f * PAGE_SIZE / PAGE_SIZE == f
      && HasTable(s, root, va) && Present(Slot(s, root, va))
  {
    hide IsSet, Walk, TablesApart;
    assert PageOwned(s, root, va, l.pages[va]);
    MappedHasTable(s, root, va);
  }

  lemma VacantFrom(s: PageState, root: int, va: int, end: int)
    requires WellFormed(s, root) && Vacant(s, root, va) && AllVacant(s, root, va + PAGE_SIZE, end)
    ensures AllVacant(s, root, va, end)
  {
    hide Walk;
  }

  lemma UnmapStep(s: PageState, root: int, l: Ledger, va: int, top: int, end: int)
    requires Good(s, root, l) && Room(s, root, top) && va in l.pages && KHEAP_START <= va
    requires AllVacant(s, root, va + PAGE_SIZE, end)
    ensures var f := l.pages[va];
      && Sane(s, root, NO_HOLE) && Address(va) && va < TABLE_WINDOW && va % PAGE_SIZE == 0 && 0 <= f < MAX_FRAMES
      && Walk(s.ph, root, va) == KernelPage(f * PAGE_SIZE) && f * PAGE_SIZE / PAGE_SIZE == f
      && HasTable(s, root, va) && Present(Slot(s, root, va))
      && Good(AfterUnmapFree(s, root, va, f), root, WithoutPage(l, va))
      && Room(AfterUnmapFree(s, root, va, f), root, top)
      && AllVacant(AfterUnmapFree(s, root, va, f), root, va, end)
      && Undisturbed(s, AfterUnmapFree(s, root, va, f), root, va, va + PAGE_SIZE)
      && |FreeFrames(AfterUnmapFree(s, root, va, f))| == |FreeFrames(s)| + 1
      && HasTable(AfterUnmapFree(s, root, va, f), root, KHEAP_START) == HasTable(s, root, KHEAP_START)
  {
    hide IsSet, Walk, WithClear, Undisturbed, FreeFrames, Write, TablesApart, Exact, Vacant, AllVacant, UpperPage, DirIndex,
         TableIndex, Present, FrameOf;
    OwnPage(s, root, l, va);
    UnmapFreeKeepsGood(s, root, l, va);
    UnmapKeepsSane(s, root, va);
    UnmapKeepsVacant(s, root, l, va, s.placement, PLACEMENT_END);
    UnmapKeepsVacant(s, root, l, va, top, KHEAP_END);
    UnmapKeepsVacant(s, root, l, va, va + PAGE_SIZE, end);
    VacantFrom(AfterUnmapFree(s, root, va, l.pages[va]), root, va, end);
    UnmapUndisturbs(s, root, l, va);
    UnmapFreesOne(s, root, l, va);
    IndicesOf(UPPER);
    IndicesOf(KHEAP_START);
  }

  // A page handed out since has a frame that was free, if all older ones still have theirs.
  lemma NewFramesWereFree(s: PageState, l: Ledger, s': PageState, l': Ledger, root: int)
    requires Good(s, root, l) && Good(s', root, l') && exists lo, hi :: OnlyAdded(s, l, s', l', root, lo, hi)
    ensures forall va :: va in l'.pages && va !in l.pages ==> !Used(s, l'.pages[va])
  {
  }

  predicate Fits(size: int, pages: int) { size + pages * PAGE_SIZE <= KHEAP_END - KHEAP_START }

  // The n pages from start on are handed out.
  ghost predicate PagesAt(l: Ledger, start: int, n: int) {
    forall va :: start <= va < start + n * PAGE_SIZE && va % PAGE_SIZE == start % PAGE_SIZE ==> va in l.pages
  }

  lemma PagesAtGrows(s: PageState, l: Ledger, r: PageState, k: Ledger, root: int, start: int, n: int)
    requires Good(s, root, l) && Good(r, root, k) && PagesAt(l, start, n) && start + n * PAGE_SIZE in k.pages
    requires OnlyAdded(s, l, r, k, root, start + n * PAGE_SIZE, start + (n + 1) * PAGE_SIZE)
    ensures PagesAt(k, start, n + 1)
  {
    hide Undisturbed, Exact, TablesApart, Sane;
    forall va | start <= va < start + (n + 1) * PAGE_SIZE && va % PAGE_SIZE == start % PAGE_SIZE ensures va in k.pages {
      if start + n * PAGE_SIZE <= va { assert va == start + n * PAGE_SIZE; }
    }
  }

  // --------------------------------------------------- one page more, in facts

  lemma HeapStepReady(s: PageState, root: int, l: Ledger, va: int)
    requires Good(s, root, l) && Room(s, root, va) && va % PAGE_SIZE == 0 && KHEAP_START <= va < KHEAP_END
    requires HasTable(s, root, KHEAP_START) || s.placement < PLACEMENT_END
    ensures WellFormed(s, root) && Sane(s, root, NO_HOLE) && Address(s.placement)
    ensures Ready(s, root, va) && DirIndex(va) != NO_HOLE
    ensures HasTable(s, root, va) == HasTable(s, root, KHEAP_START)
    ensures !OutOfFrames(s) ==>
      var a, f := AfterAlloc(s), NextFrame(s);
      && Sane(a, root, NO_HOLE) && Address(a.placement) && Address(f * PAGE_SIZE)
      && f * PAGE_SIZE / PAGE_SIZE == f < MAX_FRAMES
      && HasTable(a, root, va) == HasTable(s, root, va) && Ready(a, root, va)
      && (HasTable(a, root, va) || PlacementReady(a, root))
  {
    hide NextFrame, IsSet, OutOfFrames, Walk;
    HeapPageReady(s, root, l, va);
    HeapSlot(va);
    if !OutOfFrames(s) {
      AllocKeepsGood(s, root, l);
      ReadyAfterAlloc(s, root, l, va);
    }
  }

  lemma HeapStepCounts(s: PageState, root: int, l: Ledger, va: int)
    requires Good(s, root, l) && Room(s, root, va) && va % PAGE_SIZE == 0 && KHEAP_START <= va < KHEAP_END
    requires HasTable(s, root, KHEAP_START) || s.placement < PLACEMENT_END
    ensures var n := if HasTable(s, root, KHEAP_START) then 1 else 2;
      |FreeFrames(s)| >= n <==> !OutOfFrames(s) && CanMap(AfterAlloc(s), root, NextFrame(s) * PAGE_SIZE, va)
  {
    hide NextFrame, IsSet, OutOfFrames, Walk, AfterAlloc, CanMap, FreeFrames, Ready;
    HeapStepReady(s, root, l, va);
    AllocTakesOne(s);
    if !OutOfFrames(s) {
      OnlyFramesRunOut(s, root, l, va);
      AllocTakesOne(AfterAlloc(s));
    }
  }

  lemma MapNewIs(s: PageState, root: int, va: int)
    requires WellFormed(s, root) && Address(s.placement) && Address(va) && !OutOfFrames(s)
    requires CanMap(AfterAlloc(s), root, NextFrame(s) * PAGE_SIZE, va)
    ensures AfterMapNew(s, root, va) == AfterMap(AfterAlloc(s), root, NextFrame(s) * PAGE_SIZE, va, true, false)
  {
  }

  lemma NewPageUndisturbs(s: PageState, root: int, l: Ledger, va: int)
    requires Good(s, root, l) && Ready(s, root, va) && !OutOfFrames(s)
    requires CanMap(AfterAlloc(s), root, NextFrame(s) * PAGE_SIZE, va)
    ensures var r := AfterMapNew(s, root, va);
      && IsPhys(r.ph) && Undisturbed(s, r, root, va, va + PAGE_SIZE)
      && r.placement == (if HasTable(s, root, va) then s.placement else s.placement + PAGE_SIZE)
  {
    hide Walk, IsSet, NextFrame, OutOfFrames, Exact, WithTable, AfterMap, CanMap;
    AllocKeepsGood(s, root, l);
    ReadyAfterAlloc(s, root, l, va);
    MapNewIs(s, root, va);
    MapUndisturbs(AfterAlloc(s), root, NextFrame(s) * PAGE_SIZE, va, true, false);
    PlacementAfterMap(AfterAlloc(s), root, NextFrame(s) * PAGE_SIZE, va, true, false);
  }

  lemma NewPageKeys(s: PageState, root: int, l: Ledger, va: int)
    requires Good(s, root, l) && Ready(s, root, va) && !OutOfFrames(s)
    ensures var l' := WithNewPage(s, root, l, va);
      && l'.reserved == l.reserved && va in l'.pages
      && (forall x :: x in l'.pages ==> x in l.pages || x == va || (x == s.placement && !HasTable(s, root, va)))
      && (forall x :: x in l.pages ==> x in l'.pages && l'.pages[x] == l.pages[x])
  {
  }

  lemma NewPageAdds(s: PageState, root: int, l: Ledger, va: int)
    requires Good(s, root, l) && Ready(s, root, va) && !OutOfFrames(s)
    requires CanMap(AfterAlloc(s), root, NextFrame(s) * PAGE_SIZE, va)
    ensures var k := WithNewPage(s, root, l, va); var r := AfterMapNew(s, root, va);
      && IsPhys(r.ph) && OnlyAdded(s, l, r, k, root, va, va + PAGE_SIZE)
      && r.placement == (if HasTable(s, root, va) then s.placement else s.placement + PAGE_SIZE)
      && va in k.pages
      && forall x :: x in k.pages ==> x in l.pages || x == va || (x == s.placement && !HasTable(s, root, va))
  {
    hide Good, Ready, CanMap, AfterMapNew, WithNewPage, Undisturbed, NextFrame, OutOfFrames;
    NewPageUndisturbs(s, root, l, va);
    NewPageKeys(s, root, l, va);
  }

  lemma HeapStepKeeps(s: PageState, root: int, l: Ledger, va: int)
    requires Good(s, root, l) && Room(s, root, va) && va % PAGE_SIZE == 0 && KHEAP_START <= va < KHEAP_END
    requires HasTable(s, root, KHEAP_START) || s.placement < PLACEMENT_END
    requires !OutOfFrames(s) && CanMap(AfterAlloc(s), root, NextFrame(s) * PAGE_SIZE, va)
    requires WellFormed(s, root) && Address(s.placement)
    ensures var r := AfterMapNew(s, root, va);
      && Good(r, root, WithNewPage(s, root, l, va)) && Room(r, root, va + PAGE_SIZE)
      && HasTable(r, root, KHEAP_START) && r.limit == s.limit
      && |FreeFrames(r)| == |FreeFrames(s)| - (if HasTable(s, root, KHEAP_START) then 1 else 2)
  {
    hide NextFrame, IsSet, OutOfFrames, Walk, AfterAlloc, CanMap, FreeFrames, Ready, WithTable, Exact,
         TablesApart, AllVacant, AfterMap, Present, Read, TableOk, SelfMapped;
    HeapStepReady(s, root, l, va);
    var a, pa, r := AfterAlloc(s), NextFrame(s) * PAGE_SIZE, AfterMapNew(s, root, va);
    AllocKeepsGood(s, root, l);
    MapNewKeepsGood(s, root, l, va);
    HeapSlot(va);
    MapMoves(a, root, pa, va, true, false, UPPER);
    MapMoves(a, root, pa, va, true, false, KHEAP_START);
    SameSlotSameTable(r, root, va, KHEAP_START);
    RangesOfAlloc(s, root);
    NarrowRange(a, root, s.placement, r.placement, PLACEMENT_END);
    NarrowRange(a, root, va, va + PAGE_SIZE, KHEAP_END);
    MapKeepsVacant(a, root, pa, va, true, false, r.placement, PLACEMENT_END);
    MapKeepsVacant(a, root, pa, va, true, false, va + PAGE_SIZE, KHEAP_END);
    AllocTakesOne(s);
    OnlyFramesRunOut(s, root, l, va);
    AllocTakesOne(a);
  }

  lemma SameSlotSameTable(s: PageState, root: int, va: int, wa: int)
    requires WellFormed(s, root) && Address(va) && Address(wa) && DirIndex(va) == DirIndex(wa)
    ensures HasTable(s, root, va) == HasTable(s, root, wa)
  {
  }

  // What is free stays free when a frame is merely taken.
  lemma RangesOfAlloc(s: PageState, root: int)
    requires WellFormed(s, root) && !OutOfFrames(s) && WellFormed(AfterAlloc(s), root)
    ensures forall lo, hi :: AllVacant(s, root, lo, hi) ==> AllVacant(AfterAlloc(s), root, lo, hi)
  {
  }

  lemma NarrowRange(s: PageState, root: int, lo: int, lo': int, hi: int)
    requires WellFormed(s, root) && AllVacant(s, root, lo, hi) && lo <= lo'
    ensures AllVacant(s, root, lo', hi)
  {
  }

  // What a mapping does besides the entry: no table goes away, va has one, and the
  // placement heap moves on exactly if one was built.
  lemma MapMoves(s: PageState, root: int, pa: int, va: int, rw: bool, user: bool, x: int)
    requires Sane(s, root, NO_HOLE) && Address(pa) && Ready(s, root, va) && CanMap(s, root, pa, va) && Address(x)
    ensures var r := AfterMap(s, root, pa, va, rw, user);
      && IsPhys(r.ph) && (HasTable(s, root, x) ==> HasTable(r, root, x)) && HasTable(r, root, va)
      && r.limit == s.limit && |r.bits| == BITMAP_WORDS
      && r.placement == (if HasTable(s, root, va) then s.placement else s.placement + PAGE_SIZE)
      && FreeFrames(r) == (if HasTable(s, root, va) then FreeFrames(s) else FreeFrames(AfterAlloc(s)))
  {
    hide WithTable, NextFrame, IsSet, OutOfFrames, Walk;
    IndicesOf(va);
    IndicesOf(x);
    MapKeepsSane(s, root, pa, va, rw, user);
    var d := DirIndex(va);
    if HasTable(s, root, va) {
      PteKeepsDirectory(s, root, NO_HOLE, va, pa / PAGE_SIZE, rw, user);
    } else {
      var s1 := WithTable(s, root, d);
      TableBuilt(s, root, d);
      BuildKeepsSane(s, root, d);
      PteKeepsDirectory(s1, root, NO_HOLE, va, pa / PAGE_SIZE, rw, user);
    }
  }

  // All pages of the kernel heap have their entries in one table.
  lemma HeapSlot(va: int)
    requires KHEAP_START <= va < KHEAP_END
    ensures DirIndex(va) == 832 && DirIndex(UPPER) == BOOT_SLOT
  {
  }

  lemma PlacementSlot(s: PageState, root: int)
    requires WellFormed(s, root) && UPPER <= s.placement < PLACEMENT_END && HasTable(s, root, UPPER)
    ensures PlacementReady(s, root) && DirIndex(s.placement) == BOOT_SLOT
  {
  }

  lemma HeapPageReady(s: PageState, root: int, l: Ledger, va: int)
    requires Good(s, root, l) && Room(s, root, va) && va % PAGE_SIZE == 0 && KHEAP_START <= va < KHEAP_END
    requires HasTable(s, root, KHEAP_START) || s.placement < PLACEMENT_END
    ensures Ready(s, root, va) && HasTable(s, root, va) == HasTable(s, root, KHEAP_START)
  {
    hide Walk;
    HeapSlot(va);
    HeapSlot(KHEAP_START);
    assert Vacant(s, root, va);
    if !HasTable(s, root, KHEAP_START) {
      PlacementSlot(s, root);
      assert Vacant(s, root, s.placement);
    }
  }
}
