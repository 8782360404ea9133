/** module_table_init: mapping the modules GRUB loaded. */
module Modules {
  import opened Machine
  import opened Bitmaps
  import opened Mmu
  import opened Pages
  import opened Paging
  import opened Frames
  import opened KernelHeap
  import opened Boot

  const MODULES_START := 0xE000_0000
  const FIRST_SLOT := 896              // the directory slot of MODULES_START

  // An entry of module_table.
  datatype Loaded = Loaded(addr: int, size: int)

  function AlignDown(x: int): int { x / PAGE_SIZE * PAGE_SIZE }

  function AlignUp(x: int): int { (x + PAGE_SIZE - 1) / PAGE_SIZE * PAGE_SIZE }

  // The bytes of whole pages module m takes, and where the i-th module is put.
  function PageBytes(m: Module): int { AlignUp(m.end) - AlignDown(m.start) }

  function Position(mods: seq<Module>, i: int): int
    requires 0 <= i <= |mods|
  {
    if i == 0 then MODULES_START else Position(mods, i - 1) + PageBytes(mods[i - 1]) + PAGE_SIZE
  }

  function EntryFor(mods: seq<Module>, i: int): Loaded
    requires 0 <= i < |mods|
  {
    Loaded(Position(mods, i) + mods[i].start % PAGE_SIZE, mods[i].end - mods[i].start)
  }

  // The tables the modules can need.
  function TablesFor(mods: seq<Module>): int { (Position(mods, |mods|) - MODULES_START) / 0x40_0000 + 1 }

  // Where pages have been mapped so far.
  ghost predicate Mapping(s: PageState, root: int, m: map<int, int>)
    requires WellFormed(s, root)
  {
    forall va :: va in m ==> UpperPage(va) && MODULES_START <= va && Walk(s.ph, root, va) == ReadOnlyPage(m[va])
  }

  /** Between two pages: everything from top to end is free, at most slots 896 to slot
      were given a table, and the placement heap has moved by no more than that. */
  ghost predicate Loading(s: PageState, root: int, start: int, top: int, end: int, slot: int)
    requires WellFormed(s, root)
  {
    && FIRST_SLOT - 1 <= slot < SELF && slot <= top / 0x40_0000
    && MODULES_START <= top && top % PAGE_SIZE == 0 && AllVacant(s, root, top, end) && end <= TABLE_WINDOW
    && s.placement <= start + PAGE_SIZE * (slot - FIRST_SLOT + 1)
    && (FIRST_SLOT <= slot ==> HasTable(s, root, slot * 0x40_0000))
  }

  lemma ModuleReady(s: PageState, root: int, heapTop: int, start: int, va: int, end: int, slot: int)
    requires Sane(s, root, NO_HOLE) && Room(s, root, heapTop) && Loading(s, root, start, va, end, slot) && va < end
    requires start + PAGE_SIZE * (DirIndex(va) - FIRST_SLOT + 1) <= PLACEMENT_END
    ensures Address(s.placement) && Ready(s, root, va) && DirIndex(va) < SELF && slot <= DirIndex(va)
    ensures HasTable(s, root, va) || PlacementReady(s, root)
    ensures DirIndex(va) == slot ==> HasTable(s, root, va)
    ensures !HasTable(s, root, va) ==> s.placement + PAGE_SIZE <= start + PAGE_SIZE * (DirIndex(va) - FIRST_SLOT + 1)
  {
  }

  /** The only thing that can keep a reserved frame from being mapped at the next page
      is that no frame is left for a table. */
  lemma ModuleCanMap(s: PageState, root: int, pa: int, va: int)
    requires Sane(s, root, NO_HOLE) && Ready(s, root, va) && Address(pa) && pa % PAGE_SIZE == 0 && Used(s, pa / PAGE_SIZE)
    ensures CanMap(s, root, pa, va) <==> HasTable(s, root, va) || !OutOfFrames(s)
  {
  }

  lemma MappingGrows(s: PageState, root: int, pa: int, va: int, m: map<int, int>)
    requires Sane(s, root, NO_HOLE) && TablesApart(s, root) && Ready(s, root, va) && MODULES_START <= va
    requires Mapping(s, root, m) && Address(pa) && CanMap(s, root, pa, va)
    ensures var r := AfterMap(s, root, pa, va, false, false); WellFormed(r, root) && Mapping(r, root, m[va := pa])
  {
    hide Walk, CanMap, AfterMap, TablesApart;
    var r := AfterMap(s, root, pa, va, false, false);
    MapKeepsSane(s, root, pa, va, false, false);
    forall wa | wa in m[va := pa] ensures Walk(r.ph, root, wa) == ReadOnlyPage(m[va := pa][wa]) {
      if wa == va { OffsetOf(va, 0); MapReaches(s, root, pa, va, false, false, 0); }
      else { StaysMapped(s, root, pa, va, false, false, wa); }
    }
  }

  lemma LoadingGrows(s: PageState, root: int, heapTop: int, start: int, va: int, end: int, slot: int, pa: int)
    requires Sane(s, root, NO_HOLE) && TablesApart(s, root) && Room(s, root, heapTop) && KHEAP_START <= heapTop
    requires Loading(s, root, start, va, end, slot) && va < end && Address(pa) && Address(s.placement)
    requires start + PAGE_SIZE * (DirIndex(va) - FIRST_SLOT + 1) <= PLACEMENT_END && CanMap(s, root, pa, va)
    ensures var r := AfterMap(s, root, pa, va, false, false);
      && WellFormed(r, root) && Room(r, root, heapTop) && Loading(r, root, start, va + PAGE_SIZE, end, DirIndex(va))
      && |FreeFrames(r)| >= |FreeFrames(s)| - (DirIndex(va) - slot)
  {
    hide Walk, CanMap, AfterMap, Used, OutOfFrames, TablesApart, AllVacant, FreeFrames, Present, Vacant, Read, TableOk,
         SelfMapped;
    var r, d := AfterMap(s, root, pa, va, false, false), DirIndex(va);
    ModuleReady(s, root, heapTop, start, va, end, slot);
    MapMoves(s, root, pa, va, false, false, UPPER);
    MapKeepsUsed(s, root, pa, va, false, false);
    AllocTakesOne(s);
    MapKeepsVacant(s, root, pa, va, false, false, heapTop, KHEAP_END);
    NarrowRange(s, root, s.placement, r.placement, PLACEMENT_END);
    MapKeepsVacant(s, root, pa, va, false, false, r.placement, PLACEMENT_END);
    NarrowRange(s, root, va, va + PAGE_SIZE, end);
    MapKeepsVacant(s, root, pa, va, false, false, va + PAGE_SIZE, end);
    assert DirIndex(d * 0x40_0000) == d;
    SameSlotSameTable(r, root, va, d * 0x40_0000);
  }

  lemma ModuleStep(s: PageState, root: int, l: Ledger, heapTop: int, start: int, va: int, end: int, slot: int,
                   pa: int, m: map<int, int>)
    requires Good(s, root, l) && Room(s, root, heapTop) && Loading(s, root, start, va, end, slot) && va < end
    requires KHEAP_START <= heapTop && Mapping(s, root, m) && Address(pa) && Address(s.placement) && CanMap(s, root, pa, va)
    requires start + PAGE_SIZE * (DirIndex(va) - FIRST_SLOT + 1) <= PLACEMENT_END
    ensures var r := AfterMap(s, root, pa, va, false, false);
      && Good(r, root, Built(s, root, l, va)) && Room(r, root, heapTop)
      && Loading(r, root, start, va + PAGE_SIZE, end, DirIndex(va)) && Mapping(r, root, m[va := pa])
      && (forall f :: Used(s, f) ==> Used(r, f))
      && |FreeFrames(r)| >= |FreeFrames(s)| - (DirIndex(va) - slot)
      && (forall wa :: MODULES_START <= wa && wa != va && Vacant(s, root, wa) ==> Vacant(r, root, wa))
      && OnlyAdded(s, l, r, Built(s, root, l, va), root, va, va + PAGE_SIZE)
  {
    hide Walk, CanMap, AfterMap, Used, OutOfFrames, Exact, TablesApart, AllVacant, FreeFrames, OnlyAdded, Mapping, Present;
    ModuleReady(s, root, heapTop, start, va, end, slot);
    LoadingGrows(s, root, heapTop, start, va, end, slot, pa);
    MapKeepsGood(s, root, l, pa, va, false, false);
    ModuleAdds(s, root, l, va, pa);
    MapKeepsUsed(s, root, pa, va, false, false);
    MappingGrows(s, root, pa, va, m);
    forall wa | MODULES_START <= wa && wa != va && Vacant(s, root, wa)
      ensures Vacant(AfterMap(s, root, pa, va, false, false), root, wa)
    {
      StaysVacant(s, root, pa, va, false, false, wa);
    }
  }

  lemma ModuleAdds(s: PageState, root: int, l: Ledger, va: int, pa: int)
    requires Good(s, root, l) && Ready(s, root, va) && Address(pa) && CanMap(s, root, pa, va)
    ensures var r := AfterMap(s, root, pa, va, false, false);
      IsPhys(r.ph) && OnlyAdded(s, l, r, Built(s, root, l, va), root, va, va + PAGE_SIZE)
  {
    hide Walk, CanMap, AfterMap, Used, OutOfFrames, NextFrame;
    MapUndisturbs(s, root, pa, va, false, false);
    PlacementAfterMap(s, root, pa, va, false, false);
    if !HasTable(s, root, va) { VacantIsUnowned(s, root, l, s.placement); }
  }

  // The slot of address x, also where x is the end of the windows' range.
  function SlotAt(x: int): int { x / 0x40_0000 }

  // The n pages from va on are mapped to those from pa on.
  ghost predicate Run(m: map<int, int>, va: int, pa: int, n: int) {
    forall k :: 0 <= k < n ==> PageOf(m, va, pa, k)
  }

  ghost predicate PageOf(m: map<int, int>, va: int, pa: int, k: int) {
    va + k * PAGE_SIZE in m && m[va + k * PAGE_SIZE] == pa + k * PAGE_SIZE
  }

  ghost predicate Extends(m: map<int, int>, m': map<int, int>) {
    forall va :: va in m ==> va in m' && m'[va] == m[va]
  }

  // Everything the loops over the pages of the modules keep.
  ghost predicate Busy(h: Heap, start: int, top: int, end: int, slot: int, m: map<int, int>, gaps: set<int>,
                       mods: seq<Module>)
    reads h, h.pager, h.pager.bitmap, h.pager.bitmap.bits
  {
    && h.Valid() && Loading(h.pager.State(), h.pager.root, start, top, end, slot)
    && Mapping(h.pager.State(), h.pager.root, m) && Gaps(h.pager.State(), h.pager.root, top, gaps)
    && forall i :: 0 <= i < |mods| ==> Held(h.pager.State().bits, mods[i].start, mods[i].end)
  }

  // The pages in gaps, all below top, are not mapped.
  ghost predicate Gaps(s: PageState, root: int, top: int, gaps: set<int>)
    requires WellFormed(s, root)
  {
    forall va :: va in gaps ==> MODULES_START <= va < top && Vacant(s, root, va)
  }

  // The frames of the modules are in use.
  lemma BusyHolds(h: Heap, start: int, top: int, end: int, slot: int, m: map<int, int>, gaps: set<int>, mods: seq<Module>)
    requires Busy(h, start, top, end, slot, m, gaps, mods)
    ensures |h.pager.State().bits| == BITMAP_WORDS
    ensures forall i :: 0 <= i < |mods| ==> Held(h.pager.State().bits, mods[i].start, mods[i].end)
  {
  }

  method MapModulePage(h: Heap, pa: int, va: int, ghost start: int, ghost end: int, ghost slot: int,
                       ghost m: map<int, int>, ghost gaps: set<int>, ghost mods: seq<Module>) returns (ok: bool)
    requires Busy(h, start, va, end, slot, m, gaps, mods) && va < end
    requires start + PAGE_SIZE * (SlotAt(va) - FIRST_SLOT + 1) <= PLACEMENT_END
    requires Address(pa) && pa % PAGE_SIZE == 0 && Used(h.pager.State(), pa / PAGE_SIZE)
    modifies h`ledger, h.pager`phys, h.pager`placement, h.pager.bitmap.bits
    ensures ok ==>
      && Busy(h, start, va + PAGE_SIZE, end, SlotAt(va), m[va := pa], gaps, mods) && h.Grown(va, va + PAGE_SIZE)
      && h.Available() >= old(h.Available()) - (SlotAt(va) - slot) && slot <= SlotAt(va)
    ensures !ok ==> old(h.Available()) == 0 && slot < SlotAt(va)
  {
    hide Good, Room, Walk, IsSet, OutOfFrames, CanMap, AfterMap, Loading, Mapping, FreeFrames, Sane;
    ghost var s, l, top := h.pager.State(), h.ledger, KHEAP_START + h.size;
    GoodIsSane(s, h.pager.root, l);
    SaneIsWellFormed(s, h.pager.root, NO_HOLE);
    ModuleReady(s, h.pager.root, top, start, va, end, slot);
    ModuleCanMap(s, h.pager.root, pa, va);
    AllocTakesOne(s);
    ok := h.pager.PageMap(pa, va, false, false, NO_HOLE);
    if !ok { return; }
    ModuleStep(s, h.pager.root, l, top, start, va, end, slot, pa, m);
    h.ledger := Built(s, h.pager.root, l, va);
    forall i | 0 <= i < |mods| ensures Held(h.pager.State().bits, mods[i].start, mods[i].end) {
      StillHeld(s, h.pager.State(), mods[i]);
    }
    HeapKeys(s, h.pager.root, l, va);
  }

  lemma StillHeld(s: PageState, s': PageState, m: Module)
    requires |s.bits| == |s'.bits| == BITMAP_WORDS && Held(s.bits, m.start, m.end)
    requires forall f :: Used(s, f) ==> Used(s', f)
    ensures Held(s'.bits, m.start, m.end)
  {
    hide IsSet;
    forall f | 0 <= f < MAX_FRAMES && m.start / PAGE_SIZE <= f && f * PAGE_SIZE < m.end ensures IsSet(s'.bits, f) {
      assert Used(s, f);
      assert Used(s', f);
    }
  }

  lemma HeapKeys(s: PageState, root: int, l: Ledger, va: int)
    requires WellFormed(s, root) && Address(va) && (HasTable(s, root, va) || s.placement < PLACEMENT_END)
    ensures forall x :: x in Built(s, root, l, va).pages && PLACEMENT_END <= x ==> x in l.pages
  {
  }

  // The whole pages of a held module are held.
  lemma PagesHeld(s: PageState, m: Module, k: int)
    requires |s.bits| == BITMAP_WORDS && ModuleFits(m) && Held(s.bits, m.start, m.end)
    requires 0 <= k < PageBytes(m) / PAGE_SIZE
    ensures var pa := AlignDown(m.start) + k * PAGE_SIZE;
      Address(pa) && pa % PAGE_SIZE == 0 && Used(s, pa / PAGE_SIZE)
  {
  }

  lemma SlotsInOrder(va: int, k: int, n: int)
    requires 0 <= k < n
    ensures SlotAt(va + k * PAGE_SIZE) <= SlotAt(va + n * PAGE_SIZE) && (k + 1) * PAGE_SIZE == k * PAGE_SIZE + PAGE_SIZE
    ensures k * PAGE_SIZE + PAGE_SIZE <= n * PAGE_SIZE
  {
  }

  // Maps the pages of mods[i], which start at va.
  method MapModule(h: Heap, mods: seq<Module>, i: int, va: int, ghost start: int, ghost end: int, ghost slot: int,
                   ghost m: map<int, int>, ghost gaps: set<int>)
    returns (ok: bool, ghost slot': int, ghost m': map<int, int>)
    requires 0 <= i < |mods| && ModuleFits(mods[i]) && Busy(h, start, va, end, slot, m, gaps, mods)
    requires va + PageBytes(mods[i]) <= end
    requires start + PAGE_SIZE * (SlotAt(va + PageBytes(mods[i])) - FIRST_SLOT + 1) <= PLACEMENT_END
    requires forall x :: x in m ==> x < va
    modifies h`ledger, h.pager`phys, h.pager`placement, h.pager.bitmap.bits
    ensures ok ==>
      && Busy(h, start, va + PageBytes(mods[i]), end, slot', m', gaps, mods) && slot <= slot'
      && h.Grown(va, va + PageBytes(mods[i]))
      && h.Available() >= old(h.Available()) - (slot' - slot)
      && Extends(m, m') && (forall x :: x in m' ==> x in m || x < va + PageBytes(mods[i]))
      && Run(m', va, AlignDown(mods[i].start), PageBytes(mods[i]) / PAGE_SIZE)
    ensures !ok ==> old(h.Available()) < SlotAt(va + PageBytes(mods[i])) - slot
  {
    hide Loading, Mapping, Held, Used, FreeFrames, PageOf, Room, Gaps, Walk, OnlyAdded, Good, Extends, SlotAt, PageBytes,
         AlignDown;
    WholePages(mods[i]);
    var pa, pages, k := AlignDown(mods[i].start), PageBytes(mods[i]) / PAGE_SIZE, 0;
    ok, slot', m' := true, slot, m;
    ghost var s := h.pager.State();
    NothingAdded(s, h.ledger, h.pager.root, va);
    ExtendsItself(m);
    while k < pages
      invariant 0 <= k <= pages && ok && Busy(h, start, va + k * PAGE_SIZE, end, slot', m', gaps, mods)
      invariant h.Grown(va, va + k * PAGE_SIZE)
      invariant slot <= slot' && h.Available() >= old(h.Available()) - (slot' - slot)
      invariant Extends(m, m') && Run(m', va, pa, k) && forall x :: x in m' ==> x in m || x < va + k * PAGE_SIZE
    {
      SlotsInOrder(va, k, pages);
      BusyHolds(h, start, va + k * PAGE_SIZE, end, slot', m', gaps, mods);
      PagesHeld(h.pager.State(), mods[i], k);
      ghost var before, t, l := m', h.pager.State(), h.ledger;
      ok := MapModulePage(h, pa + k * PAGE_SIZE, va + k * PAGE_SIZE, start, end, slot', m', gaps, mods);
      if !ok { return; }
      AddedTwice(s, old(h.ledger), t, l, h.pager.State(), h.ledger, h.pager.root,
                 va, va + k * PAGE_SIZE, va + (k + 1) * PAGE_SIZE);
      slot', m' := SlotAt(va + k * PAGE_SIZE), m'[va + k * PAGE_SIZE := pa + k * PAGE_SIZE];
      RunGrows(before, va, pa, k);
      ExtendsMore(m, before, va + k * PAGE_SIZE, pa + k * PAGE_SIZE);
      k := k + 1;
    }
  }

  lemma ExtendsItself(m: map<int, int>)
    ensures Extends(m, m)
  {
  }

  lemma ExtendsMore(m: map<int, int>, m': map<int, int>, x: int, y: int)
    requires Extends(m, m') && x !in m
    ensures Extends(m, m'[x := y])
  {
  }

  lemma RunGrows(m: map<int, int>, va: int, pa: int, k: int)
    requires Run(m, va, pa, k) && 0 <= k
    ensures Run(m[va + k * PAGE_SIZE := pa + k * PAGE_SIZE], va, pa, k + 1)
  {
    var m' := m[va + k * PAGE_SIZE := pa + k * PAGE_SIZE];
    forall j | 0 <= j < k + 1 ensures PageOf(m', va, pa, j) {
      if j < k { assert PageOf(m, va, pa, j); }
    }
  }

  lemma WholePages(m: Module)
    requires ModuleFits(m)
    ensures 0 < PageBytes(m) && PageBytes(m) % PAGE_SIZE == 0
    ensures m.start % PAGE_SIZE + (m.end - m.start) <= PageBytes(m)
  {
  }

  lemma {:induction false} PositionsGrow(mods: seq<Module>, i: int, j: int)
    requires 0 <= i <= j <= |mods| && forall k :: 0 <= k < |mods| ==> ModuleFits(mods[k])
    ensures Position(mods, i) % PAGE_SIZE == 0 && MODULES_START <= Position(mods, i) <= Position(mods, j)
    ensures i < j ==> Position(mods, i) + PageBytes(mods[i]) + PAGE_SIZE <= Position(mods, j)
    decreases j
  {
    hide PageBytes;
    if i < j {
      WholePages(mods[j - 1]);
      PositionsGrow(mods, i, j - 1);
    } else if 0 < i {
      WholePages(mods[i - 1]);
      PositionsGrow(mods, i - 1, i - 1);
    }
  }

  /** module_table_init: every byte of every module can be read at its address in the
      table, and the page behind each module is not mapped.  It fails only if no frame
      is left for a table, never because a frame is not reserved or an address taken. */
  method ModuleTableInit(h: Heap, mods: seq<Module>) returns (ok: bool, table: seq<Loaded>)
    requires h.Valid() && forall i :: 0 <= i < |mods| ==> ModuleFits(mods[i])
    requires forall i :: 0 <= i < |mods| ==> Held(h.pager.State().bits, mods[i].start, mods[i].end)
    requires AllVacant(h.pager.State(), h.pager.root, MODULES_START, Position(mods, |mods|))
    requires Position(mods, |mods|) <= TABLE_WINDOW
    requires h.pager.placement + PAGE_SIZE * TablesFor(mods) <= PLACEMENT_END
    modifies h`ledger, h.pager`phys, h.pager`placement, h.pager.bitmap.bits
    ensures old(h.Available()) >= TablesFor(mods) ==> ok
    ensures ok ==>
      && h.Valid() && |table| == |mods| && (forall i :: 0 <= i < |mods| ==> table[i] == EntryFor(mods, i))
      && (forall i :: 0 <= i < |mods| ==> table[i].size == mods[i].end - mods[i].start)
      && AllMapped(h.pager.State(), h.pager.root, mods) && AllApart(h.pager.State(), h.pager.root, mods)
      && h.Grown(MODULES_START, Position(mods, |mods|))
      && h.Available() >= old(h.Available()) - TablesFor(mods)
      && h.pager.placement <= old(h.pager.placement) + PAGE_SIZE * TablesFor(mods)
  {
    hide Mapping, Held, Used, FreeFrames, PageBytes, AllVacant, Loading, Gaps, Room, Run, Position, Walk,
         Exact, TablesApart, OnlyAdded, AlignDown, IsSet, Undisturbed, Extends, ModuleAt, Sane;
    ghost var end, s := Position(mods, |mods|), h.pager.State();
    NothingAdded(s, h.ledger, h.pager.root, MODULES_START);
    PositionsGrow(mods, 0, |mods|);
    ghost var start, slot, m, gaps := h.pager.placement, FIRST_SLOT - 1, map[], {};
    var i, at := 0, MODULES_START;
    ok, table := true, [];
    SaneIsWellFormed(s, h.pager.root, NO_HOLE);
    NothingMapped(s, h.pager.root, start, end);
    PositionStep(mods, 0);
    while i < |mods|
      invariant 0 <= i <= |mods| && ok && at == Position(mods, i)
      invariant Busy(h, start, at, end, slot, m, gaps, mods) && h.Grown(MODULES_START, at) && forall x :: x in m ==> x < at
      invariant FIRST_SLOT - 1 <= slot && h.Available() >= old(h.Available()) - (slot - FIRST_SLOT + 1)
      invariant |table| == i && forall j :: 0 <= j < i ==> table[j] == EntryFor(mods, j)
      invariant forall j :: 0 <= j < i ==> ModuleAt(m, gaps, mods, j)
    {
      WholePages(mods[i]);
      PositionsGrow(mods, i, |mods|);
      PositionsGrow(mods, i + 1, |mods|);
      assert Position(mods, i + 1) == at + PageBytes(mods[i]) + PAGE_SIZE by { PositionStep(mods, i); }
      ghost var m0, gaps0, t, l := m, gaps, h.pager.State(), h.ledger;
      ok, slot, m := MapModule(h, mods, i, at, start, end, slot, m, gaps);
      if !ok { return; }
      table := table + [Loaded(at + mods[i].start % PAGE_SIZE, mods[i].end - mods[i].start)];
      var gap := at + PageBytes(mods[i]);
      SaneIsWellFormed(h.pager.State(), h.pager.root, NO_HOLE);
      SkipPage(h.pager.State(), h.pager.root, start, gap, end, slot, gaps);
      AddedTwice(s, old(h.ledger), t, l, h.pager.State(), h.ledger, h.pager.root, MODULES_START, at, gap);
      AddedMore(s, old(h.ledger), h.pager.State(), h.ledger, h.pager.root, MODULES_START, gap, gap + PAGE_SIZE);
      gaps := gaps + {gap};
      ModulesStay(m0, m, gaps0, gaps, mods, i);
      at := gap + PAGE_SIZE;
      i := i + 1;
    }
    SaneIsWellFormed(h.pager.State(), h.pager.root, NO_HOLE);
    Finished(h.pager.State(), h.pager.root, m, gaps, mods, at);
    TablesUsed(h.pager.State(), h.pager.root, start, end, slot, mods);
  }

  lemma TablesUsed(s: PageState, root: int, start: int, end: int, slot: int, mods: seq<Module>)
    requires WellFormed(s, root) && Loading(s, root, start, Position(mods, |mods|), end, slot)
    ensures slot - FIRST_SLOT + 1 <= TablesFor(mods) && s.placement <= start + PAGE_SIZE * TablesFor(mods)
  {
  }

  lemma PositionStep(mods: seq<Module>, i: int)
    requires 0 <= i <= |mods|
    ensures Position(mods, 0) == MODULES_START
    ensures i < |mods| ==> Position(mods, i + 1) == Position(mods, i) + PageBytes(mods[i]) + PAGE_SIZE
  {
  }

  lemma NothingMapped(s: PageState, root: int, start: int, end: int)
    requires WellFormed(s, root) && AllVacant(s, root, MODULES_START, end) && end <= TABLE_WINDOW && s.placement == start
    ensures Loading(s, root, start, MODULES_START, end, FIRST_SLOT - 1) && Mapping(s, root, map[])
    ensures Gaps(s, root, MODULES_START, {})
  {
  }

  lemma RunExtends(m: map<int, int>, m': map<int, int>, va: int, pa: int, n: int)
    requires Run(m, va, pa, n) && Extends(m, m')
    ensures Run(m', va, pa, n)
  {
    forall k | 0 <= k < n ensures PageOf(m', va, pa, k) { assert PageOf(m, va, pa, k); }
  }

  // One more module has been mapped, and those before it stay.
  lemma ModulesStay(m: map<int, int>, m': map<int, int>, gaps: set<int>, gaps': set<int>, mods: seq<Module>, i: int)
    requires 0 <= i < |mods| && Extends(m, m') && gaps <= gaps'
    requires forall j :: 0 <= j < i ==> ModuleAt(m, gaps, mods, j)
    requires Run(m', Position(mods, i), AlignDown(mods[i].start), PageBytes(mods[i]) / PAGE_SIZE)
    requires Position(mods, i) + PageBytes(mods[i]) in gaps'
    ensures forall j :: 0 <= j <= i ==> ModuleAt(m', gaps', mods, j)
  {
    hide Run, Extends, Position, AlignDown, PageBytes;
    forall j | 0 <= j < i ensures ModuleAt(m', gaps', mods, j) {
      assert ModuleAt(m, gaps, mods, j);
      RunExtends(m, m', Position(mods, j), AlignDown(mods[j].start), PageBytes(mods[j]) / PAGE_SIZE);
    }
  }

  // Leaving out the page at top.
  lemma SkipPage(s: PageState, root: int, start: int, top: int, end: int, slot: int, gaps: set<int>)
    requires WellFormed(s, root) && Loading(s, root, start, top, end, slot) && top < end && Gaps(s, root, top, gaps)
    ensures Loading(s, root, start, top + PAGE_SIZE, end, slot) && Gaps(s, root, top + PAGE_SIZE, gaps + {top})
  {
  }

  // Module i is mapped in full, and the page behind it is left out.
  ghost predicate ModuleAt(m: map<int, int>, gaps: set<int>, mods: seq<Module>, i: int)
    requires 0 <= i < |mods|
  {
    && Run(m, Position(mods, i), AlignDown(mods[i].start), PageBytes(mods[i]) / PAGE_SIZE)
    && Position(mods, i) + PageBytes(mods[i]) in gaps
  }

  // Byte k of module i is found at its place in memory.
  ghost predicate ByteMapped(s: PageState, root: int, mods: seq<Module>, i: int, k: int)
    requires WellFormed(s, root) && 0 <= i < |mods|
  {
    var va := EntryFor(mods, i).addr + k;
    Address(va) && Walk(s.ph, root, va) == ReadOnlyPage(mods[i].start + k)
  }

  ghost predicate AllMapped(s: PageState, root: int, mods: seq<Module>)
    requires WellFormed(s, root)
  {
    forall i, k :: 0 <= i < |mods| && 0 <= k < mods[i].end - mods[i].start ==> ByteMapped(s, root, mods, i, k)
  }

  // Behind the pages of each module comes one that is not mapped, and then the next module.
  ghost predicate AllApart(s: PageState, root: int, mods: seq<Module>)
    requires WellFormed(s, root)
  {
    && (forall i :: 0 <= i < |mods| ==> Vacant(s, root, Position(mods, i) + PageBytes(mods[i])))
    && (forall i, j :: 0 <= i < j < |mods| ==> InFront(mods, i, j))
  }

  ghost predicate InFront(mods: seq<Module>, i: int, j: int)
    requires 0 <= i < |mods| && 0 <= j < |mods|
  {
    EntryFor(mods, i).addr + EntryFor(mods, i).size <= Position(mods, i) + PageBytes(mods[i]) &&
    Position(mods, i) + PageBytes(mods[i]) + PAGE_SIZE <= EntryFor(mods, j).addr
  }

  lemma ByteOfModule(s: PageState, root: int, m: map<int, int>, gaps: set<int>, mods: seq<Module>, i: int, k: int)
    requires WellFormed(s, root) && Mapping(s, root, m) && 0 <= i < |mods| && ModuleFits(mods[i])
    requires ModuleAt(m, gaps, mods, i) && 0 <= k < mods[i].end - mods[i].start
    ensures ByteMapped(s, root, mods, i, k)
  {
    hide Walk, PageBytes, Position;
    WholePages(mods[i]);
    var o := mods[i].start % PAGE_SIZE + k;
    var j := o / PAGE_SIZE;
    assert PageOf(m, Position(mods, i), AlignDown(mods[i].start), j);
    WalkOffset(s, root, Position(mods, i) + j * PAGE_SIZE, o % PAGE_SIZE);
  }

  lemma Finished(s: PageState, root: int, m: map<int, int>, gaps: set<int>, mods: seq<Module>, at: int)
    requires WellFormed(s, root) && Mapping(s, root, m) && Gaps(s, root, at, gaps)
    requires forall i :: 0 <= i < |mods| ==> ModuleFits(mods[i]) && ModuleAt(m, gaps, mods, i)
    ensures AllMapped(s, root, mods) && AllApart(s, root, mods)
  {
    hide Walk, PageBytes, Mapping;
    forall i, k | 0 <= i < |mods| && 0 <= k < mods[i].end - mods[i].start ensures ByteMapped(s, root, mods, i, k) {
      ByteOfModule(s, root, m, gaps, mods, i, k);
    }
    forall i, j | 0 <= i < j < |mods| ensures InFront(mods, i, j) {
      WholePages(mods[i]);
      PositionsGrow(mods, i, j);
    }
  }
}
