/** tty_remap: the video memory moves from its physical address into high memory. */
module Console {
  import opened Machine
  import opened Bitmaps
  import opened Mmu
  import opened Pages
  import opened Paging
  import opened Frames
  import opened KernelHeap

  const VGA_START := 0xB8000
  const VGA_PAGES := 8                      // up to VGA_TEXT_BUFFER_END
  const VGA_HIGH := 0xF00B_8000             // VGA_START + IO_MMAP_HIGH_OFFSET
  const VGA_SHARED := 0xC00B_8000           // the same entries of the table mapped at boot
  const LOW_END := 0xC010_0000              // the end of the first megabyte, mapped high

  // --------------------------------------------------- one page of the device

  // Maps a page that is reserved, outside both heaps.
  method MapReserved(h: Heap, pa: int, va: int) returns (ok: bool)
    requires h.Valid() && Ready(h.pager.State(), h.pager.root, va) && KHEAP_END <= va
    requires Address(pa) && pa % PAGE_SIZE == 0 && Used(h.pager.State(), pa / PAGE_SIZE)
    modifies h`ledger, h.pager`phys, h.pager`placement, h.pager.bitmap.bits
    ensures ok <==> old(HasTable(h.pager.State(), h.pager.root, va)) || old(h.Available()) > 0
    ensures ok ==>
      && h.Valid() && h.Grown(va, va + PAGE_SIZE)
      && CanMap(old(h.pager.State()), h.pager.root, pa, va)
      && h.pager.State() == AfterMap(old(h.pager.State()), h.pager.root, pa, va, true, false)
      && h.ledger == Built(old(h.pager.State()), h.pager.root, old(h.ledger), va)
  {
    hide Good, Room, Walk, IsSet, OutOfFrames, CanMap, AfterMap, FreeFrames, Sane, OnlyAdded, Used;
    ghost var s, l, top := h.pager.State(), h.ledger, KHEAP_START + h.size;
    ReservedReady(s, h.pager.root, l, top, pa, va);
    AllocTakesOne(s);
    ok := h.pager.PageMap(pa, va, true, false, NO_HOLE);
    if !ok { return; }
    ReservedStep(s, h.pager.root, l, top, pa, va);
    h.ledger := Built(s, h.pager.root, l, va);
  }

  lemma ReservedReady(s: PageState, root: int, l: Ledger, top: int, pa: int, va: int)
    requires Good(s, root, l) && Room(s, root, top) && Ready(s, root, va)
    requires Address(pa) && pa % PAGE_SIZE == 0 && Used(s, pa / PAGE_SIZE)
    ensures WellFormed(s, root) && Sane(s, root, NO_HOLE) && Address(s.placement) && pa / PAGE_SIZE < MAX_FRAMES
    ensures Address(va) && va < TABLE_WINDOW && DirIndex(va) != NO_HOLE
    ensures HasTable(s, root, va) || PlacementReady(s, root)
    ensures CanMap(s, root, pa, va) <==> HasTable(s, root, va) || !OutOfFrames(s)
  {
  }

  lemma ReservedStep(s: PageState, root: int, l: Ledger, top: int, pa: int, va: int)
    requires Good(s, root, l) && Room(s, root, top) && Ready(s, root, va) && KHEAP_START <= top && KHEAP_END <= va
    requires Address(pa) && CanMap(s, root, pa, va)
    requires forall x :: x in l.pages && PLACEMENT_END <= x ==> KHEAP_START <= x < top
    ensures var r, k := AfterMap(s, root, pa, va, true, false), Built(s, root, l, va);
      && Good(r, root, k) && Room(r, root, top) && OnlyAdded(s, l, r, k, root, va, va + PAGE_SIZE)
      && forall x :: x in k.pages && PLACEMENT_END <= x ==> KHEAP_START <= x < top
  {
    hide Walk, CanMap, AfterMap, Used, OutOfFrames, Exact, TablesApart, AllVacant, OnlyAdded, NextFrame, Present, Read, TableOk,
         SelfMapped, DirIndex, FreeFrames;
    var r := AfterMap(s, root, pa, va, true, false);
    MapKeepsGood(s, root, l, pa, va, true, false);
    MapMoves(s, root, pa, va, true, false, UPPER);
    MapKeepsVacant(s, root, pa, va, true, false, top, KHEAP_END);
    NarrowRange(s, root, s.placement, r.placement, PLACEMENT_END);
    MapKeepsVacant(s, root, pa, va, true, false, r.placement, PLACEMENT_END);
    ReservedAdds(s, root, l, pa, va);
  }

  lemma ReservedAdds(s: PageState, root: int, l: Ledger, pa: int, va: int)
    requires Good(s, root, l) && Ready(s, root, va) && Address(pa) && CanMap(s, root, pa, va)
    ensures var r := AfterMap(s, root, pa, va, true, false);
      IsPhys(r.ph) && OnlyAdded(s, l, r, Built(s, root, l, va), root, va, va + PAGE_SIZE)
  {
    hide Walk, CanMap, AfterMap, Used, OutOfFrames, NextFrame;
    MapUndisturbs(s, root, pa, va, true, false);
    PlacementAfterMap(s, root, pa, va, true, false);
    if !HasTable(s, root, va) { VacantIsUnowned(s, root, l, s.placement); }
  }

  // ----------------------------------------------------------- the low pages

  /** Unmapping a page of the first 4 MiB also unmaps its double in the upper gigabyte, and
      nothing else below the windows: the boot code gave both the same table. */
  lemma UnmapLowKeepsGood(s: PageState, root: int, l: Ledger, va: int)
    requires Good(s, root, l) && 0 <= va < 0x40_0000 && va % PAGE_SIZE == 0 && HasTable(s, root, va)
    requires UPPER + va !in l.pages
    ensures Good(AfterUnmap(s, root, va), root, l)
    ensures forall wa :: Page(wa) && wa != va && wa != UPPER + va ==>
      Walk(AfterUnmap(s, root, va).ph, root, wa) == Walk(s.ph, root, wa)
    ensures HasTable(s, root, UPPER) && FrameOf(Pde(s.ph, root, BOOT_SLOT)) == FrameOf(Pde(s.ph, root, 0)) ==>
      Walk(AfterUnmap(s, root, va).ph, root, UPPER + va) == None
  {
    hide IsSet, Walk;
    var r := AfterUnmap(s, root, va);
    UnmapKeepsSane(s, root, va);
    forall wa | Page(wa) && wa != va && wa != UPPER + va ensures Walk(r.ph, root, wa) == Walk(s.ph, root, wa) {
      UnmapRemoves(s, root, va, wa);
      if SameEntry(s.ph, root, va, wa) { LowEntry(s, root, va, wa); }
    }
    UnmapRemoves(s, root, va, UPPER + va);
    LowSlot(va);
    forall wa | wa in l.pages ensures PageOwned(r, root, wa, l.pages[wa]) {
      assert PageOwned(s, root, wa, l.pages[wa]);
    }
  }

  lemma LowSlot(va: int)
    requires 0 <= va < 0x40_0000 && va % PAGE_SIZE == 0
    ensures DirIndex(va) == 0 && DirIndex(UPPER + va) == BOOT_SLOT == DirIndex(UPPER)
    ensures TableIndex(va) == TableIndex(UPPER + va) == va / PAGE_SIZE
  {
  }

  lemma LowEntry(s: PageState, root: int, va: int, wa: int)
    requires Sane(s, root, NO_HOLE) && TablesApart(s, root) && 0 <= va < 0x40_0000 && va % PAGE_SIZE == 0
    requires HasTable(s, root, va) && Page(wa) && wa != va && wa != UPPER + va && SameEntry(s.ph, root, va, wa)
    ensures Walk(s.ph, root, wa) == None
  {
    LowSlot(va);
    IndicesOf(wa);
    SlotNumber(wa);
    SlotNumber(UPPER + va);
    var d := DirIndex(wa);
    if 0 < d && d != BOOT_SLOT && Present(Pde(s.ph, root, d)) { OtherTable(s, root, d); }
  }

  lemma OtherTable(s: PageState, root: int, d: int)
    requires IsPhys(s.ph) && 0 <= root < FRAMES && TablesApart(s, root) && 0 < d < SELF && d != BOOT_SLOT
    requires Present(Pde(s.ph, root, 0)) && Present(Pde(s.ph, root, d))
    ensures FrameOf(Pde(s.ph, root, d)) != FrameOf(Pde(s.ph, root, 0))
  {
    assert HaveTables(s, root, 0, d);
  }

  // --------------------------------------------------------------- tty_remap

  // Slots 0 and 768 have the same table, and the placement heap is beyond the device in it.
  ghost predicate LowTable(s: PageState, root: int)
    requires WellFormed(s, root)
  {
    && Present(Pde(s.ph, root, 0)) && Present(Pde(s.ph, root, BOOT_SLOT))
    && FrameOf(Pde(s.ph, root, BOOT_SLOT)) == FrameOf(Pde(s.ph, root, 0))
    && LOW_END <= s.placement <= PLACEMENT_END
  }

  // Mapping a page changes no other directory entry than its own ...
  lemma SlotStays(s: PageState, root: int, pa: int, va: int, d: int)
    requires Sane(s, root, NO_HOLE) && Ready(s, root, va) && Address(pa) && CanMap(s, root, pa, va)
    requires 0 <= d < ENTRIES && d != DirIndex(va)
    ensures IsPhys(AfterMap(s, root, pa, va, true, false).ph)
    ensures Pde(AfterMap(s, root, pa, va, true, false).ph, root, d) == Pde(s.ph, root, d)
  {
    hide Walk, WithTable, NextFrame, OutOfFrames, WithPte, IsSet;
    IndicesOf(va);
    if HasTable(s, root, va) {
      PteKeepsDirectory(s, root, NO_HOLE, va, pa / PAGE_SIZE, true, false);
    } else {
      TableBuilt(s, root, DirIndex(va));
      BuildKeepsSane(s, root, DirIndex(va));
      PteKeepsDirectory(WithTable(s, root, DirIndex(va)), root, NO_HOLE, va, pa / PAGE_SIZE, true, false);
    }
  }

  // ... so that one in high memory leaves that table where it is ...
  lemma LowTableStays(s: PageState, root: int, pa: int, va: int)
    requires Sane(s, root, NO_HOLE) && Ready(s, root, va) && LowTable(s, root)
    requires Address(pa) && CanMap(s, root, pa, va) && VGA_HIGH <= va < TABLE_WINDOW
    ensures var r := AfterMap(s, root, pa, va, true, false); WellFormed(r, root) && LowTable(r, root)
  {
    hide Walk, AfterMap, NextFrame, OutOfFrames, IsSet, CanMap;
    MapKeepsSane(s, root, pa, va, true, false);
    PlacementAfterMap(s, root, pa, va, true, false);
    SlotStays(s, root, pa, va, 0);
    SlotStays(s, root, pa, va, BOOT_SLOT);
  }

  // ... and the device's low pages mapped through it.
  lemma LowPageStays(s: PageState, root: int, pa: int, va: int, x: int)
    requires Sane(s, root, NO_HOLE) && TablesApart(s, root) && Ready(s, root, va) && LowTable(s, root)
    requires Address(pa) && CanMap(s, root, pa, va) && VGA_HIGH <= va < TABLE_WINDOW
    requires VGA_START <= x < VGA_START + VGA_PAGES * PAGE_SIZE
    ensures Walk(AfterMap(s, root, pa, va, true, false).ph, root, x) == Walk(s.ph, root, x)
  {
    hide Walk, AfterMap, NextFrame, OutOfFrames, IsSet;
    IndicesOf(va);
    LowIndex(x);
    if HasTable(s, root, va) {
      OtherTable(s, root, DirIndex(va));
    } else {
      PlacementIndex(s.placement);
    }
    MapKeepsOthers(s, root, pa, va, true, false, x);
  }

  lemma LowIndex(x: int)
    requires VGA_START <= x < VGA_START + VGA_PAGES * PAGE_SIZE
    ensures Address(x) && DirIndex(x) == 0 && 0xB8 <= TableIndex(x) < 0xC0
  {
  }

  lemma PlacementIndex(x: int)
    requires LOW_END <= x < PLACEMENT_END
    ensures Address(x) && TableIndex(x) >= 0x100
  {
  }

  // Page j of the device is mapped at its physical address, and its double in the upper
  // gigabyte was not handed out.
  ghost predicate Low(s: PageState, root: int, l: Ledger, j: int)
    requires WellFormed(s, root) && 0 <= j < VGA_PAGES
  {
    Walk(s.ph, root, VGA_START + j * PAGE_SIZE).Some? && VGA_SHARED + j * PAGE_SIZE !in l.pages
  }

  // Page j of the device is mapped high, and not low any more.
  ghost predicate High(s: PageState, root: int, j: int)
    requires WellFormed(s, root) && 0 <= j < VGA_PAGES
  {
    Walk(s.ph, root, VGA_HIGH + j * PAGE_SIZE) == KernelPage(VGA_START + j * PAGE_SIZE)
  }

  ghost predicate GoneLow(s: PageState, root: int, j: int)
    requires WellFormed(s, root) && 0 <= j < VGA_PAGES
  {
    && Walk(s.ph, root, VGA_START + j * PAGE_SIZE) == None
    && Walk(s.ph, root, VGA_SHARED + j * PAGE_SIZE) == None
  }

  // The device's frames count as in use.
  ghost predicate DeviceUsed(s: PageState)
    requires |s.bits| == BITMAP_WORDS
  {
    forall f :: VGA_START / PAGE_SIZE <= f < VGA_START / PAGE_SIZE + VGA_PAGES ==> Used(s, f)
  }

  /** Between two pages: those before i have been mapped high, and those before k have
      been unmapped low. */
  ghost predicate Between(s: PageState, root: int, l: Ledger, i: int, k: int)
    requires WellFormed(s, root) && 0 <= k <= i <= VGA_PAGES
  {
    && LowTable(s, root) && DeviceUsed(s)
    && AllVacant(s, root, VGA_HIGH + i * PAGE_SIZE, VGA_HIGH + VGA_PAGES * PAGE_SIZE)
    && (0 < i ==> HasTable(s, root, VGA_HIGH))
    && (forall j :: 0 <= j < i ==> High(s, root, j))
    && (forall j :: k <= j < VGA_PAGES ==> Low(s, root, l, j))
    && (forall j :: 0 <= j < k ==> GoneLow(s, root, j))
  }

  // There is a table for the device's high pages, or room for one.
  ghost predicate HasHigh(s: PageState, root: int)
    requires WellFormed(s, root)
  {
    HasTable(s, root, VGA_HIGH) || s.placement < PLACEMENT_END
  }

  lemma HighReady(s: PageState, root: int, l: Ledger, top: int, i: int)
    requires Good(s, root, l) && Room(s, root, top) && 0 <= i < VGA_PAGES
    requires Between(s, root, l, i, 0) && HasHigh(s, root)
    ensures var va := VGA_HIGH + i * PAGE_SIZE; var pa := VGA_START + i * PAGE_SIZE;
      && Ready(s, root, va) && HasTable(s, root, va) == HasTable(s, root, VGA_HIGH)
      && Address(pa) && pa % PAGE_SIZE == 0 && Used(s, pa / PAGE_SIZE)
  {
    hide IsSet, Walk, Exact, High, Low, Present, Read, TableOk, SelfMapped, TablesApart;
  }

  // r and k are what mapping page i high makes of s and l.
  ghost predicate Mapped(s: PageState, root: int, l: Ledger, i: int, r: PageState, k: Ledger)
    requires WellFormed(s, root) && 0 <= i < VGA_PAGES
  {
    var pa, va := VGA_START + i * PAGE_SIZE, VGA_HIGH + i * PAGE_SIZE;
    && Ready(s, root, va) && Address(pa) && CanMap(s, root, pa, va)
    && r == AfterMap(s, root, pa, va, true, false) && k == Built(s, root, l, va)
  }

  lemma HighStep(s: PageState, root: int, l: Ledger, top: int, i: int, r: PageState, k: Ledger)
    requires Good(s, root, l) && Room(s, root, top) && 0 <= i < VGA_PAGES
    requires Between(s, root, l, i, 0) && HasHigh(s, root) && Mapped(s, root, l, i, r, k)
    ensures WellFormed(r, root) && Between(r, root, k, i + 1, 0)
    ensures |FreeFrames(r)| == |FreeFrames(s)| - (if HasTable(s, root, VGA_HIGH) then 0 else 1)
    ensures r.placement == s.placement + (if HasTable(s, root, VGA_HIGH) then 0 else PAGE_SIZE)
  {
    hide Walk, CanMap, AfterMap, FreeFrames, OutOfFrames, NextFrame, Exact, TablesApart, Used, Room;
    var pa, va := VGA_START + i * PAGE_SIZE, VGA_HIGH + i * PAGE_SIZE;
    HighReady(s, root, l, top, i);
    LowTableStays(s, root, pa, va);
    MapUndisturbs(s, root, pa, va, true, false);
    VacantUndisturbed(s, r, root, va, va + PAGE_SIZE, va + PAGE_SIZE, VGA_HIGH + VGA_PAGES * PAGE_SIZE);
    MapMoves(s, root, pa, va, true, false, va);
    MapKeepsUsed(s, root, pa, va, true, false);
    AllocTakesOne(s);
    HighTable(r, root, i);
    HighPages(s, root, l, i, r, k);
    LowPages(s, root, l, i, r, k);
  }

  lemma HighTable(s: PageState, root: int, i: int)
    requires WellFormed(s, root) && 0 <= i < VGA_PAGES
    ensures HasTable(s, root, VGA_HIGH + i * PAGE_SIZE) == HasTable(s, root, VGA_HIGH)
  {
  }

  lemma HighPages(s: PageState, root: int, l: Ledger, i: int, r: PageState, k: Ledger)
    requires Sane(s, root, NO_HOLE) && WellFormed(r, root) && 0 <= i < VGA_PAGES && Between(s, root, l, i, 0)
    requires Mapped(s, root, l, i, r, k)
    requires Undisturbed(s, r, root, VGA_HIGH + i * PAGE_SIZE, VGA_HIGH + (i + 1) * PAGE_SIZE)
    requires r.placement <= PLACEMENT_END
    ensures forall j :: 0 <= j <= i ==> High(r, root, j)
  {
    hide Walk, High, Between, Mapped, Undisturbed;
    HighNow(s, root, l, i, r, k);
    forall j | 0 <= j < i ensures High(r, root, j) { HighStays(s, root, l, i, r, j); }
  }

  lemma HighNow(s: PageState, root: int, l: Ledger, i: int, r: PageState, k: Ledger)
    requires Sane(s, root, NO_HOLE) && WellFormed(r, root) && 0 <= i < VGA_PAGES && Mapped(s, root, l, i, r, k)
    ensures High(r, root, i)
  {
    hide Walk, CanMap, AfterMap;
    OffsetOf(VGA_HIGH + i * PAGE_SIZE, 0);
    MapReaches(s, root, VGA_START + i * PAGE_SIZE, VGA_HIGH + i * PAGE_SIZE, true, false, 0);
  }

  lemma HighStays(s: PageState, root: int, l: Ledger, i: int, r: PageState, j: int)
    requires WellFormed(s, root) && WellFormed(r, root) && 0 <= j < i < VGA_PAGES && Between(s, root, l, i, 0)
    requires Undisturbed(s, r, root, VGA_HIGH + i * PAGE_SIZE, VGA_HIGH + (i + 1) * PAGE_SIZE)
    requires r.placement <= PLACEMENT_END
    ensures High(r, root, j)
  {
    hide Walk, LowTable, DeviceUsed, AllVacant, Low, GoneLow;
    assert High(s, root, j);
  }

  lemma LowPages(s: PageState, root: int, l: Ledger, i: int, r: PageState, k: Ledger)
    requires Sane(s, root, NO_HOLE) && TablesApart(s, root) && WellFormed(r, root) && 0 <= i < VGA_PAGES
    requires Between(s, root, l, i, 0) && Mapped(s, root, l, i, r, k)
    ensures forall j :: 0 <= j < VGA_PAGES ==> Low(r, root, k, j)
  {
    hide Walk, CanMap, AfterMap, High, GoneLow, DeviceUsed, AllVacant, Present, Read, TableOk, SelfMapped;
    forall j | 0 <= j < VGA_PAGES ensures Low(r, root, k, j) {
      assert Low(s, root, l, j);
      LowPageStays(s, root, VGA_START + i * PAGE_SIZE, VGA_HIGH + i * PAGE_SIZE, VGA_START + j * PAGE_SIZE);
    }
  }

  method MapHigh(h: Heap, i: int) returns (ok: bool)
    requires 0 <= i < VGA_PAGES && h.Valid() && Between(h.pager.State(), h.pager.root, h.ledger, i, 0)
    requires HasHigh(h.pager.State(), h.pager.root)
    modifies h`ledger, h.pager`phys, h.pager`placement, h.pager.bitmap.bits
    ensures ok <==> old(HasTable(h.pager.State(), h.pager.root, VGA_HIGH)) || old(h.Available()) > 0
    ensures ok ==>
      && h.Valid() && Between(h.pager.State(), h.pager.root, h.ledger, i + 1, 0)
      && h.Grown(VGA_HIGH + i * PAGE_SIZE, VGA_HIGH + (i + 1) * PAGE_SIZE)
      && h.pager.placement ==
        old(h.pager.placement) + (if old(HasTable(h.pager.State(), h.pager.root, VGA_HIGH)) then 0 else PAGE_SIZE)
      && h.Available() == old(h.Available()) - (if old(HasTable(h.pager.State(), h.pager.root, VGA_HIGH)) then 0 else 1)
  {
    hide Good, Room, Walk, CanMap, AfterMap, FreeFrames, Sane, OnlyAdded, Between, Used;
    ghost var s, l := h.pager.State(), h.ledger;
    HighReady(s, h.pager.root, l, KHEAP_START + h.size, i);
    ok := MapReserved(h, VGA_START + i * PAGE_SIZE, VGA_HIGH + i * PAGE_SIZE);
    if !ok { return; }
    HighStep(s, h.pager.root, l, KHEAP_START + h.size, i, h.pager.State(), h.ledger);
  }

  // ------------------------------------------------------------ the low half

  method UnmapLow(h: Heap, k: int) returns (ok: bool)
    requires 0 <= k < VGA_PAGES && h.Valid() && Between(h.pager.State(), h.pager.root, h.ledger, VGA_PAGES, k)
    modifies h.pager`phys
    ensures ok && h.Valid() && Between(h.pager.State(), h.pager.root, h.ledger, VGA_PAGES, k + 1)
    ensures h.Available() == old(h.Available())
    ensures OthersKept(old(h.pager.State()), h.pager.State(), h.pager.root,
                       VGA_SHARED + k * PAGE_SIZE, VGA_SHARED + (k + 1) * PAGE_SIZE)
  {
    hide Good, Room, Walk, AfterUnmap, FreeFrames, Sane, Between, Used, OthersKept;
    ghost var s := h.pager.State();
    LowReady(s, h.pager.root, h.ledger, k);
    ok := h.pager.PageUnmap(VGA_START + k * PAGE_SIZE);
    LowStep(s, h.pager.root, h.ledger, KHEAP_START + h.size, k, h.pager.State());
  }

  // No page has changed its translation but for those in [lo, hi) and their doubles.
  ghost predicate OthersKept(s: PageState, r: PageState, root: int, lo: int, hi: int)
    requires IsPhys(s.ph) && IsPhys(r.ph) && 0 <= root < FRAMES
  {
    forall wa :: Page(wa) && !Near(wa, lo, hi) ==> Walk(r.ph, root, wa) == Walk(s.ph, root, wa)
  }

  lemma LowReady(s: PageState, root: int, l: Ledger, k: int)
    requires Good(s, root, l) && 0 <= k < VGA_PAGES && Between(s, root, l, VGA_PAGES, k)
    ensures var va := VGA_START + k * PAGE_SIZE;
      && Sane(s, root, NO_HOLE) && Address(va) && va < TABLE_WINDOW && va % PAGE_SIZE == 0
      && HasTable(s, root, va) && Present(Slot(s, root, va)) && UPPER + va !in l.pages
  {
    hide Walk, Exact, TablesApart, High, GoneLow;
    assert Low(s, root, l, k);
    MappedHasTable(s, root, VGA_START + k * PAGE_SIZE);
  }

  lemma LowStep(s: PageState, root: int, l: Ledger, top: int, k: int, r: PageState)
    requires Good(s, root, l) && Room(s, root, top) && 0 <= k < VGA_PAGES && Between(s, root, l, VGA_PAGES, k)
    requires KHEAP_START <= top
    requires Address(VGA_START + k * PAGE_SIZE) && r == AfterUnmap(s, root, VGA_START + k * PAGE_SIZE)
    ensures Good(r, root, l) && Room(r, root, top) && Between(r, root, l, VGA_PAGES, k + 1)
    ensures FreeFrames(r) == FreeFrames(s)
    ensures OthersKept(s, r, root, VGA_SHARED + k * PAGE_SIZE, VGA_SHARED + (k + 1) * PAGE_SIZE)
  {
    hide Walk, Exact, TablesApart, High, Low, GoneLow, IsSet;
    var va := VGA_START + k * PAGE_SIZE;
    LowReady(s, root, l, k);
    LowIndex(va);
    UnmapLowKeepsGood(s, root, l, va);
    UnmapKeepsSane(s, root, va);
    LowSlot(va);
    forall f | VGA_START / PAGE_SIZE <= f < VGA_START / PAGE_SIZE + VGA_PAGES ensures Used(r, f) { assert Used(s, f); }
    forall j | 0 <= j < VGA_PAGES ensures High(r, root, j) { StillHigh(s, root, l, k, r, j); }
    forall j | k < j < VGA_PAGES ensures Low(r, root, l, j) { StillLow(s, root, l, k, r, j); }
    forall j | 0 <= j <= k ensures GoneLow(r, root, j) { NowGone(s, root, l, k, r, j); }
  }

  lemma StillHigh(s: PageState, root: int, l: Ledger, k: int, r: PageState, j: int)
    requires WellFormed(s, root) && WellFormed(r, root) && 0 <= k < VGA_PAGES && 0 <= j < VGA_PAGES
    requires Between(s, root, l, VGA_PAGES, k)
    requires OthersKept(s, r, root, VGA_SHARED + k * PAGE_SIZE, VGA_SHARED + (k + 1) * PAGE_SIZE)
    ensures High(r, root, j)
  {
    hide Walk, Low, GoneLow, LowTable, DeviceUsed, AllVacant;
    assert High(s, root, j);
  }

  lemma StillLow(s: PageState, root: int, l: Ledger, k: int, r: PageState, j: int)
    requires Sane(s, root, NO_HOLE) && WellFormed(r, root) && 0 <= k < j < VGA_PAGES
    requires Between(s, root, l, VGA_PAGES, k) && HasTable(s, root, VGA_START + k * PAGE_SIZE)
    requires r == AfterUnmap(s, root, VGA_START + k * PAGE_SIZE)
    ensures Low(r, root, l, j)
  {
    hide Walk, High, GoneLow, LowTable, DeviceUsed, AllVacant, AfterUnmap;
    assert Low(s, root, l, j);
    PageIndex(k);
    PageIndex(j);
    UnmapRemoves(s, root, VGA_START + k * PAGE_SIZE, VGA_START + j * PAGE_SIZE);
  }

  lemma NowGone(s: PageState, root: int, l: Ledger, k: int, r: PageState, j: int)
    requires Sane(s, root, NO_HOLE) && WellFormed(r, root) && 0 <= j <= k < VGA_PAGES
    requires Between(s, root, l, VGA_PAGES, k) && HasTable(s, root, VGA_START + k * PAGE_SIZE)
    requires r == AfterUnmap(s, root, VGA_START + k * PAGE_SIZE)
    ensures GoneLow(r, root, j)
  {
    hide Walk, High, Low, DeviceUsed, AllVacant, AfterUnmap;
    var va := VGA_START + k * PAGE_SIZE;
    PageIndex(k);
    LowSlot(va);
    if j < k { assert GoneLow(s, root, j); }
    UnmapRemoves(s, root, va, VGA_START + j * PAGE_SIZE);
    UnmapRemoves(s, root, va, VGA_SHARED + j * PAGE_SIZE);
  }

  lemma PageIndex(j: int)
    requires 0 <= j < VGA_PAGES
    ensures var va := VGA_START + j * PAGE_SIZE; Address(va) && DirIndex(va) == 0 && TableIndex(va) == 0xB8 + j
  {
  }

  // ---------------------------------------------------------------- together

  /** What tty_remap leaves alone: every page below the windows that is not one of the
      device's, high or low, nor one of the placement heap or its double. */
  ghost predicate OnlyDeviceMoved(s: PageState, r: PageState, root: int)
    requires IsPhys(s.ph) && IsPhys(r.ph) && 0 <= root < FRAMES
  {
    forall wa :: Page(wa) && !OfDevice(wa) && !Near(wa, s.placement, r.placement) ==>
      Walk(r.ph, root, wa) == Walk(s.ph, root, wa)
  }

  predicate OfDevice(wa: int) {
    Near(wa, VGA_HIGH, VGA_HIGH + VGA_PAGES * PAGE_SIZE) || Near(wa, VGA_SHARED, VGA_SHARED + VGA_PAGES * PAGE_SIZE)
  }

  // All pages high.
  method MapAllHigh(h: Heap) returns (ok: bool)
    requires h.Valid() && Between(h.pager.State(), h.pager.root, h.ledger, 0, 0)
    requires HasHigh(h.pager.State(), h.pager.root)
    modifies h`ledger, h.pager`phys, h.pager`placement, h.pager.bitmap.bits
    ensures ok <==> old(HasTable(h.pager.State(), h.pager.root, VGA_HIGH)) || old(h.Available()) > 0
    ensures ok ==>
      && h.Valid() && Between(h.pager.State(), h.pager.root, h.ledger, VGA_PAGES, 0)
      && h.Available() == old(h.Available()) - (if old(HasTable(h.pager.State(), h.pager.root, VGA_HIGH)) then 0 else 1)
      && h.pager.placement ==
        old(h.pager.placement) + (if old(HasTable(h.pager.State(), h.pager.root, VGA_HIGH)) then 0 else PAGE_SIZE)
      && h.Grown(VGA_HIGH, VGA_HIGH + VGA_PAGES * PAGE_SIZE)
  {
    hide Exact, TablesApart, Room, Walk, FreeFrames, Between, Used, OnlyAdded;
    ghost var s, l, root := h.pager.State(), h.ledger, h.pager.root;
    NothingAdded(s, l, root, VGA_HIGH);
    ok := true;
    var page := 0;
    while page < VGA_PAGES
      invariant ok && 0 <= page <= VGA_PAGES && h.Valid() && Between(h.pager.State(), root, h.ledger, page, 0)
      invariant h.Grown(VGA_HIGH, VGA_HIGH + page * PAGE_SIZE)
      invariant HasHigh(h.pager.State(), root)
      invariant HasTable(h.pager.State(), root, VGA_HIGH) == (page > 0 || HasTable(s, root, VGA_HIGH))
      invariant h.Available() == old(h.Available()) - (if page == 0 || HasTable(s, root, VGA_HIGH) then 0 else 1)
      invariant h.pager.placement == s.placement + (if page == 0 || HasTable(s, root, VGA_HIGH) then 0 else PAGE_SIZE)
    {
      ghost var t, m := h.pager.State(), h.ledger;
      ok := MapHigh(h, page);
      if !ok { return; }
      AddedTwice(s, l, t, m, h.pager.State(), h.ledger, root,
                 VGA_HIGH, VGA_HIGH + page * PAGE_SIZE, VGA_HIGH + (page + 1) * PAGE_SIZE);
      TableOfBetween(h.pager.State(), root, h.ledger, page + 1);
      page := page + 1;
    }
  }

  lemma TableOfBetween(s: PageState, root: int, l: Ledger, i: int)
    requires WellFormed(s, root) && 0 < i <= VGA_PAGES && Between(s, root, l, i, 0)
    ensures HasTable(s, root, VGA_HIGH)
  {
  }

  // All pages off their physical addresses.
  method UnmapAllLow(h: Heap)
    requires h.Valid() && Between(h.pager.State(), h.pager.root, h.ledger, VGA_PAGES, 0)
    modifies h.pager`phys
    ensures h.Valid() && Between(h.pager.State(), h.pager.root, h.ledger, VGA_PAGES, VGA_PAGES)
    ensures h.Available() == old(h.Available())
    ensures OthersKept(old(h.pager.State()), h.pager.State(), h.pager.root, VGA_SHARED, VGA_SHARED + VGA_PAGES * PAGE_SIZE)
  {
    hide Exact, TablesApart, Room, FreeFrames, Between, Used, Walk, OthersKept;
    ghost var s, root := h.pager.State(), h.pager.root;
    OthersKeptTwice(s, s, s, root, VGA_SHARED, VGA_SHARED, VGA_SHARED);
    var page := 0;
    while page < VGA_PAGES
      invariant 0 <= page <= VGA_PAGES && h.Valid() && Between(h.pager.State(), root, h.ledger, VGA_PAGES, page)
      invariant h.Available() == old(h.Available())
      invariant OthersKept(s, h.pager.State(), root, VGA_SHARED, VGA_SHARED + page * PAGE_SIZE)
    {
      ghost var t := h.pager.State();
      var _ := UnmapLow(h, page);
      OthersKeptTwice(s, t, h.pager.State(), root,
                      VGA_SHARED, VGA_SHARED + page * PAGE_SIZE, VGA_SHARED + (page + 1) * PAGE_SIZE);
      page := page + 1;
    }
  }

  lemma OthersKeptTwice(s: PageState, r: PageState, t: PageState, root: int, lo: int, mid: int, hi: int)
    requires IsPhys(s.ph) && IsPhys(r.ph) && IsPhys(t.ph) && 0 <= root < FRAMES && lo <= mid <= hi
    requires s == r == t || (OthersKept(s, r, root, lo, mid) && OthersKept(r, t, root, mid, hi))
    ensures OthersKept(s, t, root, lo, hi)
  {
    hide Walk;
  }

  /** tty_remap: the device is found in high memory and no longer at its physical address,
      nor at that plus 3 GiB, which shares its table.  It fails only for want of a frame for
      a table. */
  method TtyRemap(h: Heap) returns (ok: bool)
    requires h.Valid() && Between(h.pager.State(), h.pager.root, h.ledger, 0, 0)
    requires HasHigh(h.pager.State(), h.pager.root)
    modifies h`ledger, h.pager`phys, h.pager`placement, h.pager.bitmap.bits
    ensures ok <==> old(HasTable(h.pager.State(), h.pager.root, VGA_HIGH)) || old(h.Available()) > 0
    ensures ok ==>
      && h.Valid() && Between(h.pager.State(), h.pager.root, h.ledger, VGA_PAGES, VGA_PAGES)
      && h.Available() == old(h.Available()) - (if old(HasTable(h.pager.State(), h.pager.root, VGA_HIGH)) then 0 else 1)
      && OnlyDeviceMoved(old(h.pager.State()), h.pager.State(), h.pager.root)
      && h.ledger.reserved == old(h.ledger.reserved)
      && h.pager.placement ==
        old(h.pager.placement) + (if old(HasTable(h.pager.State(), h.pager.root, VGA_HIGH)) then 0 else PAGE_SIZE)
  {
    hide Exact, TablesApart, Room, FreeFrames, Between, Used, Walk, OthersKept, OnlyDeviceMoved, OnlyAdded;
    ghost var s, l := h.pager.State(), h.ledger;
    ok := MapAllHigh(h);
    if !ok { return; }
    ghost var t := h.pager.State();
    UnmapAllLow(h);
    Moved(s, l, t, h.ledger, h.pager.State(), h.pager.root);
  }

  lemma Moved(s: PageState, l: Ledger, r: PageState, k: Ledger, t: PageState, root: int)
    requires IsPhys(s.ph) && IsPhys(r.ph) && IsPhys(t.ph) && 0 <= root < FRAMES && t.placement == r.placement
    requires OnlyAdded(s, l, r, k, root, VGA_HIGH, VGA_HIGH + VGA_PAGES * PAGE_SIZE)
    requires OthersKept(r, t, root, VGA_SHARED, VGA_SHARED + VGA_PAGES * PAGE_SIZE)
    ensures OnlyDeviceMoved(s, t, root) && k.reserved == l.reserved
  {
    hide Walk;
  }

  /** Byte by byte. */
  lemma DeviceBytes(s: PageState, root: int, l: Ledger, o: int)
    requires WellFormed(s, root) && Between(s, root, l, VGA_PAGES, VGA_PAGES) && 0 <= o < VGA_PAGES * PAGE_SIZE
    ensures Address(VGA_HIGH + o) && Walk(s.ph, root, VGA_HIGH + o) == KernelPage(VGA_START + o)
    ensures Address(VGA_START + o) && Walk(s.ph, root, VGA_START + o) == None
    ensures Address(VGA_SHARED + o) && Walk(s.ph, root, VGA_SHARED + o) == None
  {
    hide Walk, LowTable, DeviceUsed, AllVacant, Low;
    var j := o / PAGE_SIZE;
    assert High(s, root, j) && GoneLow(s, root, j);
    WalkOffset(s, root, VGA_HIGH + j * PAGE_SIZE, o % PAGE_SIZE);
    NoWalkOffset(s, root, VGA_START + j * PAGE_SIZE, o % PAGE_SIZE);
    NoWalkOffset(s, root, VGA_SHARED + j * PAGE_SIZE, o % PAGE_SIZE);
  }

  lemma NoWalkOffset(s: PageState, root: int, va: int, o: int)
    requires WellFormed(s, root) && Address(va) && va % PAGE_SIZE == 0 && Walk(s.ph, root, va) == None && 0 <= o < PAGE_SIZE
    ensures Address(va + o) && Walk(s.ph, root, va + o) == None
  {
    OffsetOf(va, o);
  }
}
