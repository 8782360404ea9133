/** The memory part of kmain: pmm_init, tty_remap and module_table_init, one after the other. */
module Startup {
  import opened Machine
  import opened Bitmaps
  import opened Mmu
  import opened Pages
  import opened Paging
  import opened Frames
  import opened KernelHeap
  import opened Boot
  import opened Modules
  import opened Console
  import opened Kernel
  import A = Allocator
  import S = Search
  import L = Layout
  import H = History
  import Memory

  const MODULE_SIZE := 16      // sizeof(struct module)

  // The frames free after pmm_init.
  ghost function BootFree(memSize: int, map_: seq<Region>, start: int, end: int, mods: seq<Module>): set<int> {
    set f | 0 <= f < BITS_PER_WORD * WordCount(memSize) && !BootUsed(map_, start, end, mods, f)
  }

  // No region of the memory map covers the video memory.
  ghost predicate DeviceKept(map_: seq<Region>) {
    forall f :: VGA_START / PAGE_SIZE <= f < VGA_START / PAGE_SIZE + VGA_PAGES ==> !Freed(map_, |map_|, f)
  }

  // The pages of kernel heap the module table is put in.
  function TablePages(mods: seq<Module>): int {
    if mods == [] then 0 else L.PagesFor(|mods| * MODULE_SIZE)
  }

  /** After pmm_init the video memory is where the boot code mapped it, and everything
      above the kernel heap is free. */
  lemma BootBetween(s: PageState, root: int, table: int, start: int, end: int, l: Ledger)
    requires Booted(s.ph, root, table, start, end) && WellFormed(s, root) && l.pages == map[]
    requires s.placement == PlacementStart(end) && DeviceUsed(s)
    ensures Between(s, root, l, 0, 0) && AllVacant(s, root, MODULES_START, VGA_HIGH)
    ensures !HasTable(s, root, VGA_HIGH) && !HasTable(s, root, KHEAP_START) && s.placement < PLACEMENT_END
  {
    forall va | UpperPage(va) && MODULES_START <= va < VGA_HIGH + VGA_PAGES * PAGE_SIZE ensures Vacant(s, root, va) {
      NoTableThere(s, root, table, start, end, va);
    }
    NoTableThere(s, root, table, start, end, KHEAP_START);
    NoTableThere(s, root, table, start, end, VGA_HIGH);
    forall j | 0 <= j < VGA_PAGES ensures Low(s, root, l, j) {
      PageIndex(j);
    }
  }

  lemma NoTableThere(s: PageState, root: int, table: int, start: int, end: int, va: int)
    requires Booted(s.ph, root, table, start, end) && WellFormed(s, root) && KHEAP_START <= va < TABLE_WINDOW
    requires va % PAGE_SIZE == 0
    ensures !HasTable(s, root, va) && Vacant(s, root, va)
  {
    IndicesOf(va);
  }

  lemma VacantMoved(s: PageState, r: PageState, root: int, lo: int, hi: int)
    requires WellFormed(s, root) && WellFormed(r, root) && OnlyDeviceMoved(s, r, root) && AllVacant(s, root, lo, hi)
    requires MODULES_START <= lo && hi <= VGA_HIGH && r.placement <= PLACEMENT_END
    ensures AllVacant(r, root, lo, hi)
  {
    hide Walk;
    forall wa | UpperPage(wa) && lo <= wa < hi ensures Vacant(r, root, wa) {
      assert Vacant(s, root, wa);
    }
  }

  lemma HighUndisturbed(s: PageState, r: PageState, root: int, lo: int, hi: int)
    requires WellFormed(s, root) && WellFormed(r, root) && Undisturbed(s, r, root, lo, hi)
    requires hi <= VGA_HIGH && r.placement <= PLACEMENT_END
    requires forall j :: 0 <= j < VGA_PAGES ==> High(s, root, j)
    ensures forall j :: 0 <= j < VGA_PAGES ==> High(r, root, j)
  {
    hide Walk;
    forall j | 0 <= j < VGA_PAGES ensures High(r, root, j) {
      assert High(s, root, j);
    }
  }

  // Reserved frames stay in use.
  lemma HeldByLedger(s: PageState, root: int, l: Ledger, start: int, end: int)
    requires Good(s, root, l)
    requires forall f :: 0 <= f < MAX_FRAMES && start / PAGE_SIZE <= f && f * PAGE_SIZE < end ==> f in l.reserved
    ensures Held(s.bits, start, end)
  {
    forall f | 0 <= f < MAX_FRAMES && start / PAGE_SIZE <= f && f * PAGE_SIZE < end ensures IsSet(s.bits, f) {
      assert Used(s, f);
    }
  }

  // The byte range is in no frame that was handed out.
  ghost predicate NotHandedOut(l: Ledger, start: int, end: int) {
    forall va :: va in l.pages ==> !(start / PAGE_SIZE <= l.pages[va] && l.pages[va] * PAGE_SIZE < end)
  }

  /** Whatever changes only the kernel and the placement heap leaves the modules mapped. */
  lemma ModulesSurvive(s: PageState, r: PageState, root: int, mods: seq<Module>)
    requires WellFormed(s, root) && WellFormed(r, root) && Undisturbed(s, r, root, KHEAP_START, KHEAP_END)
    requires r.placement <= PLACEMENT_END && Position(mods, |mods|) <= TABLE_WINDOW
    requires forall i :: 0 <= i < |mods| ==> ModuleFits(mods[i])
    requires AllMapped(s, root, mods) && AllApart(s, root, mods)
    ensures AllMapped(r, root, mods) && AllApart(r, root, mods)
  {
    hide Walk, Position, PageBytes, Undisturbed, InFront;
    forall i, k | 0 <= i < |mods| && 0 <= k < mods[i].end - mods[i].start ensures ByteMapped(r, root, mods, i, k) {
      assert ByteMapped(s, root, mods, i, k);
      ByteInModules(mods, i, k);
      ByteSurvives(s, r, root, EntryFor(mods, i).addr + k);
    }
    forall i | 0 <= i < |mods| ensures Vacant(r, root, Position(mods, i) + PageBytes(mods[i])) {
      ByteInModules(mods, i, 0);
      GapSurvives(s, r, root, Position(mods, i) + PageBytes(mods[i]));
    }
  }

  lemma ByteInModules(mods: seq<Module>, i: int, k: int)
    requires 0 <= i < |mods| && 0 <= k < mods[i].end - mods[i].start && Position(mods, |mods|) <= TABLE_WINDOW
    requires forall j :: 0 <= j < |mods| ==> ModuleFits(mods[j])
    ensures MODULES_START <= EntryFor(mods, i).addr + k < TABLE_WINDOW
    ensures MODULES_START <= Position(mods, i) + PageBytes(mods[i])
  {
    hide PageBytes;
    WholePages(mods[i]);
    PositionsGrow(mods, i, |mods|);
  }

  lemma ByteSurvives(s: PageState, r: PageState, root: int, x: int)
    requires WellFormed(s, root) && WellFormed(r, root) && Undisturbed(s, r, root, KHEAP_START, KHEAP_END)
    requires r.placement <= PLACEMENT_END && MODULES_START <= x < TABLE_WINDOW && Walk(s.ph, root, x).Some?
    ensures Walk(r.ph, root, x) == Walk(s.ph, root, x)
  {
    hide Walk;
    var page, o := x / PAGE_SIZE * PAGE_SIZE, x % PAGE_SIZE;
    WalkOfByte(s, root, page, o);
    assert UpperPage(page);
    WalkOffset(s, root, page, o);
    WalkOffset(r, root, page, o);
  }

  lemma WalkOfByte(s: PageState, root: int, page: int, o: int)
    requires WellFormed(s, root) && UpperPage(page) && 0 <= o < PAGE_SIZE && Address(page + o)
    requires Walk(s.ph, root, page + o).Some?
    ensures Walk(s.ph, root, page).Some?
  {
    OffsetOf(page, o);
  }

  lemma GapSurvives(s: PageState, r: PageState, root: int, va: int)
    requires WellFormed(s, root) && WellFormed(r, root) && Undisturbed(s, r, root, KHEAP_START, KHEAP_END)
    requires r.placement <= PLACEMENT_END && MODULES_START <= va && Vacant(s, root, va)
    ensures Vacant(r, root, va)
  {
    hide Walk;
  }

  // Frame 0 and those of the kernel and the modules are reserved.
  ghost predicate Protected(l: Ledger, start: int, end: int, mods: seq<Module>) {
    && Covered(l, 0, 1) && Covered(l, start, end)
    && forall i :: 0 <= i < |mods| ==> Covered(l, mods[i].start, mods[i].end)
  }

  ghost predicate Covered(l: Ledger, start: int, end: int) {
    forall f :: 0 <= f < MAX_FRAMES && start / PAGE_SIZE <= f && f * PAGE_SIZE < end ==> f in l.reserved
  }

  lemma ProtectedAtBoot(s: PageState, start: int, end: int, mods: seq<Module>)
    requires |s.bits| == BITMAP_WORDS && IsSet(s.bits, 0) && Held(s.bits, start, end)
    requires forall i :: 0 <= i < |mods| ==> Held(s.bits, mods[i].start, mods[i].end)
    ensures Protected(Ledger(map[], UsedFrames(s)), start, end, mods)
  {
    hide IsSet;
    var l := Ledger(map[], UsedFrames(s));
    forall f | 0 <= f < MAX_FRAMES && IsSet(s.bits, f) ensures f in l.reserved { assert Used(s, f); }
    forall i | 0 <= i < |mods| ensures Covered(l, mods[i].start, mods[i].end) {
      assert Held(s.bits, mods[i].start, mods[i].end);
    }
  }

  lemma NeverHandedOut(s: PageState, root: int, l: Ledger, start: int, end: int)
    requires Good(s, root, l) && Covered(l, start, end)
    ensures NotHandedOut(l, start, end)
  {
    hide IsSet, Walk;
    forall va | va in l.pages ensures 0 <= l.pages[va] < MAX_FRAMES && l.pages[va] !in l.reserved {
      assert PageOwned(s, root, va, l.pages[va]);
    }
  }

  lemma FreeAtBoot(s: PageState, memSize: int, map_: seq<Region>, start: int, end: int, mods: seq<Module>)
    requires |s.bits| == BITMAP_WORDS && s.limit == BITS_PER_WORD * WordCount(memSize) <= MAX_FRAMES
    requires forall f :: 0 <= f < MAX_FRAMES ==> (IsSet(s.bits, f) <==> BootUsed(map_, start, end, mods, f))
    ensures FreeFrames(s) == BootFree(memSize, map_, start, end, mods)
  {
    hide IsSet, BootUsed;
  }

  lemma DeviceAtBoot(s: PageState, map_: seq<Region>, start: int, end: int, mods: seq<Module>)
    requires |s.bits| == BITMAP_WORDS && DeviceKept(map_)
    requires forall f :: 0 <= f < MAX_FRAMES ==> (IsSet(s.bits, f) <==> BootUsed(map_, start, end, mods, f))
    ensures DeviceUsed(s)
  {
    hide IsSet, InSpan;
    forall f | VGA_START / PAGE_SIZE <= f < VGA_START / PAGE_SIZE + VGA_PAGES ensures Used(s, f) {
      InitiallySet(f);
      assert Used0(f) && !Freed(map_, |map_|, f);
      assert BootUsed(map_, start, end, mods, f);
    }
  }

  // pmm_init, the kernel heap on top, and tty_remap.
  method Prepare(p: Pager, memSize: int, map_: seq<Region>, start: int, end: int, mods: seq<Module>, ghost table: int)
    returns (ok: bool, h: Heap?)
    requires 0 <= memSize < WORD_RANGE && p.bitmap.bits.Length == BITMAP_WORDS
    requires forall i :: 0 <= i < BITMAP_WORDS ==> p.bitmap.bits[i] == 0
    requires forall i :: 0 <= i < |map_| && map_[i].available ==> SpanFits(Low32(map_[i].addr), Low32(map_[i].addr))
    requires forall i :: 0 <= i < |mods| ==> ModuleFits(mods[i])
    requires Booted(p.phys, p.root, table, start, end) && DeviceKept(map_)
    modifies p, p.bitmap, p.bitmap.bits
    ensures ok <==> WordCount(memSize) < BITMAP_WORDS && |BootFree(memSize, map_, start, end, mods)| > 0
    ensures ok ==>
      && h != null && fresh(h) && h.Valid() && h.pager == p && h.size == 0
      && Protected(h.ledger, start, end, mods) && p.placement == PlacementStart(end) + PAGE_SIZE
      && h.Available() == |BootFree(memSize, map_, start, end, mods)| - 1
      && (forall j :: 0 <= j < VGA_PAGES ==> High(p.State(), p.root, j))
      && AllVacant(p.State(), p.root, MODULES_START, VGA_HIGH)
  {
    hide Good, Room, IsSet, Booted, Held, InSpan, Between, FreeFrames, Walk, High, Protected, BootUsed, DeviceKept,
         DeviceUsed, AllVacant, OnlyDeviceMoved;
    h := null;
    ok := PmmInit(p, memSize, map_, start, end, mods, table);
    if !ok { return; }
    ghost var s, l := p.State(), Ledger(map[], UsedFrames(p.State()));
    GoodIsSane(s, p.root, l);
    SaneIsWellFormed(s, p.root, NO_HOLE);
    DeviceAtBoot(s, map_, start, end, mods);
    ProtectedAtBoot(s, start, end, mods);
    FreeAtBoot(s, memSize, map_, start, end, mods);
    BootBetween(s, p.root, table, start, end, l);
    h := new Heap(p, l);
    ok := TtyRemap(h);
    if !ok { return; }
    h.PlacementBound();
    h.Still(0, 0);
    VacantMoved(s, p.State(), p.root, MODULES_START, VGA_HIGH);
    HighOf(p.State(), p.root, h.ledger);
    SameCovered(l, h.ledger, start, end, mods);
  }

  lemma HighOf(s: PageState, root: int, l: Ledger)
    requires WellFormed(s, root) && Between(s, root, l, VGA_PAGES, VGA_PAGES)
    ensures forall j :: 0 <= j < VGA_PAGES ==> High(s, root, j)
  {
  }

  lemma SameCovered(l: Ledger, k: Ledger, start: int, end: int, mods: seq<Module>)
    requires k.reserved == l.reserved && Protected(l, start, end, mods)
    ensures Protected(k, start, end, mods)
  {
    forall i | 0 <= i < |mods| ensures Covered(k, mods[i].start, mods[i].end) {
      assert Covered(l, mods[i].start, mods[i].end);
    }
  }

  /** What holds from then on: the allocator and the heap under it are in order and can go
      on, the modules and the console are mapped, and their frames, the kernel's and frame 0
      are reserved. */
  ghost predicate Running(k: KernelMemory, start: int, end: int, mods: seq<Module>)
    reads k.alloc, k.heap, k.heap.pager, k.heap.pager.bitmap, k.heap.pager.bitmap.bits
  {
    && k.Valid() && k.CanExtend() && Protected(k.heap.ledger, start, end, mods)
    && AllMapped(k.heap.pager.State(), k.heap.pager.root, mods) && AllApart(k.heap.pager.State(), k.heap.pager.root, mods)
    && forall j :: 0 <= j < VGA_PAGES ==> High(k.heap.pager.State(), k.heap.pager.root, j)
  }

  // The state of the allocator after module_table_init: it holds the table, if there is one.
  function AfterTable(mods: seq<Module>): S.HeapState {
    if mods == [] then S.INITIAL else S.AfterMalloc(S.INITIAL, |mods| * MODULE_SIZE)
  }

  // The n entries of the module table are in a payload of their own.
  ghost predicate HasTableOf(k: KernelMemory, n: int)
    reads k.alloc
  {
    exists p :: TableAt(k.alloc.layout, p, n)
  }

  ghost predicate TableAt(l: seq<L.Block>, p: int, n: int) { H.Holds(l, p, n * MODULE_SIZE) }

  lemma TableIsHeld(k: KernelMemory, n: int)
    requires k.Valid() && 0 < n && k.alloc.State() == S.AfterMalloc(S.INITIAL, n * MODULE_SIZE)
    ensures HasTableOf(k, n)
  {
    var p := S.Returned(S.INITIAL, n * MODULE_SIZE);
    S.MallocKeepsMinors(S.INITIAL, n * MODULE_SIZE, 0, 0);
    var i, j := S.Choose(S.INITIAL, n * MODULE_SIZE).index, S.GapFor(S.INITIAL, n * MODULE_SIZE);
    assert H.HeldBy(k.alloc.layout[i].chunks[j], p, n * MODULE_SIZE);
    assert TableAt(k.alloc.layout, p, n);
  }

  // module_table_init, with the memory for the table.
  method LoadModules(k: KernelMemory, mods: seq<Module>, ghost start: int, ghost end: int)
    returns (ok: bool, loaded: seq<Loaded>)
    requires k.Valid() && (forall i :: 0 <= i < |mods| ==> ModuleFits(mods[i])) && Protected(k.heap.ledger, start, end, mods)
    requires AllVacant(k.heap.pager.State(), k.heap.pager.root, MODULES_START, VGA_HIGH) && k.heap.size == 0
    requires Position(mods, |mods|) <= VGA_HIGH
    requires k.alloc.State() == S.INITIAL
    requires k.heap.pager.placement + PAGE_SIZE * (1 + TablesFor(mods)) <= PLACEMENT_END
    requires forall j :: 0 <= j < VGA_PAGES ==> High(k.heap.pager.State(), k.heap.pager.root, j)
    modifies k.alloc, k.heap, k.heap.pager`phys, k.heap.pager`placement, k.heap.pager.bitmap.bits
    ensures Fits(0, TablePages(mods)) && old(k.heap.Available()) >= 1 + TablePages(mods) + TablesFor(mods) ==> ok
    ensures ok ==>
      && Running(k, start, end, mods) && k.alloc.State() == AfterTable(mods)
      && k.heap.Available() >= old(k.heap.Available()) - (1 + TablePages(mods) + TablesFor(mods))
      && (mods != [] ==> HasTableOf(k, |mods|))
      && |loaded| == |mods| && forall i :: 0 <= i < |mods| ==> loaded[i] == EntryFor(mods, i)
  {
    hide Good, Room, Walk, High, AllVacant, OnlyAdded, Undisturbed, Position, FreeFrames, AllMapped, AllApart, Protected,
         Held, S.AfterMalloc, S.Returned, Backed, S.Grows, L.PagesFor, HasTableOf, A.Kept, A.Confined, Paged;
    ghost var s, l, root := k.heap.pager.State(), k.heap.ledger, k.heap.pager.root;
    ok, loaded := true, [];
    SomeTables(mods);
    FewModules(mods);
    FirstRequest(|mods| * MODULE_SIZE);
    if |mods| == 0 {
      k.heap.Still(0, 0);
      NoModules(s, root, mods);
      return;
    }
    k.heap.Still(0, 0);
    var r := k.Kcalloc(|mods|, MODULE_SIZE);
    if r == A.Panic { return false, []; }
    ghost var t, m := k.heap.pager.State(), k.heap.ledger;
    k.heap.Still(0, 0);
    k.heap.PlacementBound();
    SameCovered(l, m, start, end, mods);
    AllHeld(t, root, m, start, end, mods);
    VacantUndisturbed(s, t, root, KHEAP_START, KHEAP_END, MODULES_START, VGA_HIGH);
    NarrowEnd(t, root, MODULES_START, Position(mods, |mods|), VGA_HIGH);
    HighUndisturbed(s, t, root, KHEAP_START, KHEAP_END);
    ok, loaded := ModuleTableInit(k.heap, mods);
    if !ok { return; }
    k.heap.Still(0, 0);
    k.heap.PlacementBound();
    AddedAbove(t, m, k.heap.pager.State(), k.heap.ledger, root, Position(mods, |mods|),
               k.alloc.layout, KHEAP_START + k.heap.size);
    SameCovered(m, k.heap.ledger, start, end, mods);
    HighUndisturbed(t, k.heap.pager.State(), root, MODULES_START, Position(mods, |mods|));
    TableMapped(k, |mods| * MODULE_SIZE);
    TableIsHeld(k, |mods|);
  }

  // The first major starts the kernel heap, and so that has its page table.
  lemma TableMapped(k: KernelMemory, n: int)
    requires k.Valid() && 0 <= n && k.alloc.State() == S.AfterMalloc(S.INITIAL, n)
    ensures k.heap.HeapTable()
  {
    hide Walk, IsSet;
    FirstRequest(n);
    assert k.alloc.layout[0].base == KHEAP_START;
    assert PageOfMajor(k.alloc.layout, KHEAP_START);
    assert PageOwned(k.heap.pager.State(), k.heap.pager.root, KHEAP_START, k.heap.ledger.pages[KHEAP_START]);
    MappedHasTable(k.heap.pager.State(), k.heap.pager.root, KHEAP_START);
  }

  lemma SomeTables(mods: seq<Module>)
    requires forall i :: 0 <= i < |mods| ==> ModuleFits(mods[i])
    ensures TablesFor(mods) >= 1 && TablePages(mods) >= 0 && MODULES_START <= Position(mods, |mods|)
  {
    PositionsGrow(mods, 0, |mods|);
  }

  // Each module takes two pages at least, so that their table is small.
  lemma FewModules(mods: seq<Module>)
    requires (forall i :: 0 <= i < |mods| ==> ModuleFits(mods[i])) && Position(mods, |mods|) <= VGA_HIGH
    ensures |mods| * MODULE_SIZE <= S.MAX_REQUEST
  {
    PositionAtLeast(mods, |mods|);
  }

  lemma {:induction false} PositionAtLeast(mods: seq<Module>, n: nat)
    requires n <= |mods| && forall i :: 0 <= i < |mods| ==> ModuleFits(mods[i])
    ensures MODULES_START + 2 * n * PAGE_SIZE <= Position(mods, n)
  {
    hide PageBytes;
    if n > 0 {
      PositionAtLeast(mods, n - 1);
      WholePages(mods[n - 1]);
      PositionsGrow(mods, n - 1, n);
    }
  }

  // The first request of all makes the heap grow.
  lemma FirstRequest(n: int)
    requires 0 <= n
    ensures S.Grows(S.INITIAL, n) && (S.CanGrow(S.INITIAL, n) <==> Fits(0, L.PagesFor(n))) && L.PagesFor(n) > 0
  {
  }

  lemma NoModules(s: PageState, root: int, mods: seq<Module>)
    requires WellFormed(s, root) && |mods| == 0
    ensures AllMapped(s, root, mods) && AllApart(s, root, mods)
  {
  }

  lemma AllHeld(s: PageState, root: int, l: Ledger, start: int, end: int, mods: seq<Module>)
    requires Good(s, root, l) && Protected(l, start, end, mods)
    ensures forall i :: 0 <= i < |mods| ==> Held(s.bits, mods[i].start, mods[i].end)
  {
    forall i | 0 <= i < |mods| ensures Held(s.bits, mods[i].start, mods[i].end) {
      assert Covered(l, mods[i].start, mods[i].end);
      HeldByLedger(s, root, l, mods[i].start, mods[i].end);
    }
  }

  lemma NarrowEnd(s: PageState, root: int, lo: int, hi: int, hi': int)
    requires WellFormed(s, root) && AllVacant(s, root, lo, hi') && hi <= hi'
    ensures AllVacant(s, root, lo, hi)
  {
  }

  // What is handed out above the kernel heap leaves that as it is.
  lemma AddedAbove(s: PageState, l: Ledger, r: PageState, k: Ledger, root: int, hi: int, layout: seq<L.Block>, top: int)
    requires Good(s, root, l) && Good(r, root, k) && OnlyAdded(s, l, r, k, root, MODULES_START, hi)
    requires Backed(layout, l) && top <= KHEAP_END && r.placement <= PLACEMENT_END
    requires forall va :: va in k.pages && PLACEMENT_END <= va ==> KHEAP_START <= va < top
    ensures Backed(layout, k) && k.reserved == l.reserved && Undisturbed(s, r, root, MODULES_START, hi)
  {
    hide PageOfMajor, Walk;
  }

  /** From the state the boot code leaves to the kernel's main tasks: every module can be
      read at its address in the table, the console is in high memory, the allocator and
      the heap under it are in order, and no page handed out has a frame of the kernel, of
      a module, or frame 0.  With enough frames and kernel heap it succeeds. */
  method Start(p: Pager, mem: seq<Memory.Byte>, memSize: int, map_: seq<Region>, start: int, end: int, mods: seq<Module>,
               ghost table: int)
    returns (ok: bool, k: KernelMemory?, loaded: seq<Loaded>)
    requires 0 <= memSize < WORD_RANGE && p.bitmap.bits.Length == BITMAP_WORDS
    requires forall i :: 0 <= i < BITMAP_WORDS ==> p.bitmap.bits[i] == 0
    requires forall i :: 0 <= i < |map_| && map_[i].available ==> SpanFits(Low32(map_[i].addr), Low32(map_[i].addr))
    requires forall i :: 0 <= i < |mods| ==> ModuleFits(mods[i])
    requires Booted(p.phys, p.root, table, start, end) && DeviceKept(map_) && |mem| == Memory.MEMORY_SIZE
    requires Position(mods, |mods|) <= VGA_HIGH
    requires PlacementStart(end) + PAGE_SIZE * (2 + TablesFor(mods)) <= PLACEMENT_END
    modifies p, p.bitmap, p.bitmap.bits
    ensures (&& WordCount(memSize) < BITMAP_WORDS && Fits(0, TablePages(mods))
             && |BootFree(memSize, map_, start, end, mods)| >= 2 + TablePages(mods) + TablesFor(mods)) ==> ok
    ensures ok ==>
      && k != null && fresh(k) && fresh(k.alloc) && fresh(k.heap) && k.heap.pager == p
      && Running(k, start, end, mods) && k.alloc.State() == AfterTable(mods)
      && k.heap.Available() >= |BootFree(memSize, map_, start, end, mods)| - (2 + TablePages(mods) + TablesFor(mods))
      && (mods != [] ==> HasTableOf(k, |mods|))
      && |loaded| == |mods| && (forall i :: 0 <= i < |mods| ==> loaded[i] == EntryFor(mods, i))
      && NotHandedOut(k.heap.ledger, 0, 1) && NotHandedOut(k.heap.ledger, start, end)
      && forall i :: 0 <= i < |mods| ==> NotHandedOut(k.heap.ledger, mods[i].start, mods[i].end)
  {
    hide Good, Room, IsSet, Booted, Held, InSpan, FreeFrames, Walk, High, Protected, BootUsed, DeviceKept, AllVacant, Position,
         AllMapped, AllApart, NotHandedOut, L.PagesFor;
    k, loaded := null, [];
    var h;
    ok, h := Prepare(p, memSize, map_, start, end, mods, table);
    SomeTables(mods);
    if !ok { return; }
    var a := new A.Liballoc(mem);
    k := new KernelMemory(a, h);
    ok, loaded := LoadModules(k, mods, start, end);
    if ok { NobodyHas(p.State(), p.root, k.heap.ledger, start, end, mods); }
  }

  lemma NobodyHas(s: PageState, root: int, l: Ledger, start: int, end: int, mods: seq<Module>)
    requires Good(s, root, l) && Protected(l, start, end, mods)
    ensures NotHandedOut(l, 0, 1) && NotHandedOut(l, start, end)
    ensures forall i :: 0 <= i < |mods| ==> NotHandedOut(l, mods[i].start, mods[i].end)
  {
    hide Good, Covered, NotHandedOut;
    NeverHandedOut(s, root, l, 0, 1);
    NeverHandedOut(s, root, l, start, end);
    forall i | 0 <= i < |mods| ensures NotHandedOut(l, mods[i].start, mods[i].end) {
      assert Covered(l, mods[i].start, mods[i].end);
      NeverHandedOut(s, root, l, mods[i].start, mods[i].end);
    }
  }
}
