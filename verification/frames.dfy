/** Who owns which frame.  Frames are handed out for pages of the kernel heap and of the
    placement heap; all others in use were reserved at boot. */
module Frames {
  import opened Machine
  import opened Bitmaps
  import opened Mmu
  import opened Pages

  const BOOT_SLOT := 768                      // shares its table with slot 0
  const UPPER := 0xC000_0000                  // the start of slot 768
  const PLACEMENT_END := 0xC040_0000          // its end, and that of the region mapped at boot

  // Which frame is behind each page handed out, and which frames never were.
  datatype Ledger = Ledger(pages: map<int, int>, reserved: set<int>)

  // Directory slots share no table, but for the two that did at boot.
  ghost predicate TablesApart(s: PageState, root: int)
    requires IsPhys(s.ph) && 0 <= root < FRAMES
  {
    forall d, e :: 0 <= d < e < SELF && HaveTables(s, root, d, e) && (d, e) != (0, BOOT_SLOT) ==>
      FrameOf(Pde(s.ph, root, d)) != FrameOf(Pde(s.ph, root, e))
  }

  predicate HaveTables(s: PageState, root: int, d: int, e: int)
    requires IsPhys(s.ph) && 0 <= root < FRAMES && 0 <= d < ENTRIES && 0 <= e < ENTRIES
  {
    Present(Pde(s.ph, root, d)) && Present(Pde(s.ph, root, e))
  }

  // A page of the upper gigabyte below the windows.
  predicate UpperPage(va: int) {
    0xC000_0000 <= va < TABLE_WINDOW && va % PAGE_SIZE == 0
  }

  // A page below the windows.
  predicate Page(va: int) {
    0 <= va < TABLE_WINDOW && va % PAGE_SIZE == 0
  }

  // va is in [lo, hi), or the same entry of slot 0 belongs to it as to an address there of
  // slot 768, which has the same table.
  predicate Near(va: int, lo: int, hi: int) {
    lo <= va < hi || (va < PLACEMENT_END - UPPER && lo <= UPPER + va < hi)
  }

  ghost predicate PageOwned(s: PageState, root: int, va: int, f: int)
    requires WellFormed(s, root)
  {
    && UpperPage(va) && Used(s, f)
    && Walk(s.ph, root, va) == KernelPage(f * PAGE_SIZE)
  }

  ghost predicate HandedOut(l: Ledger, f: int) { exists va :: va in l.pages && l.pages[va] == f }

  // A table is a page of the placement heap, or was reserved at boot.
  ghost predicate TableOwned(l: Ledger, f: int) {
    f in l.reserved || exists va :: va in l.pages && va < PLACEMENT_END && l.pages[va] == f
  }

  /** Every page handed out is where the ledger says, no two share a frame, none has a
      reserved frame, and a frame is in use exactly if it is reserved or handed out. */
  ghost predicate Exact(s: PageState, root: int, l: Ledger)
    requires WellFormed(s, root)
  {
    && (forall va :: va in l.pages ==> PageOwned(s, root, va, l.pages[va]))
    && (forall va, wa :: va in l.pages && wa in l.pages && va != wa ==> l.pages[va] != l.pages[wa])
    && (forall va :: va in l.pages ==> l.pages[va] !in l.reserved && l.pages[va] < s.limit)
    && (forall f :: Used(s, f) <==> f in l.reserved || HandedOut(l, f))
    && (forall d :: 0 <= d < ENTRIES && Present(Pde(s.ph, root, d)) ==> TableOwned(l, FrameOf(Pde(s.ph, root, d))))
  }

  ghost predicate Good(s: PageState, root: int, l: Ledger) {
    Sane(s, root, NO_HOLE) && TablesApart(s, root) && Exact(s, root, l)
  }

  ghost predicate NotTable(s: PageState, root: int, f: int)
    requires WellFormed(s, root)
  {
    forall d :: 0 <= d < ENTRIES && Present(Pde(s.ph, root, d)) ==> FrameOf(Pde(s.ph, root, d)) != f
  }

  // A page of the upper gigabyte and another page are translated through the same entry only
  // if the one is in slot 768 and the other in slot 0.
  lemma EntriesApart(s: PageState, root: int, va: int, wa: int)
    requires Sane(s, root, NO_HOLE) && TablesApart(s, root) && UpperPage(va) && Page(wa)
    requires !Near(wa, va, va + PAGE_SIZE) && HasTable(s, root, va) && HasTable(s, root, wa)
    ensures !SameEntry(s.ph, root, va, wa)
  {
    IndicesOf(va);
    IndicesOf(wa);
    var d, e := DirIndex(va), DirIndex(wa);
    assert va / PAGE_SIZE == d * ENTRIES + TableIndex(va) by { SlotNumber(va); }
    assert wa / PAGE_SIZE == e * ENTRIES + TableIndex(wa) by { SlotNumber(wa); }
    if e < d { assert HaveTables(s, root, e, d); } else if d < e { assert HaveTables(s, root, d, e); }
  }

  lemma UpperEntriesApart(s: PageState, root: int, va: int, wa: int)
    requires Sane(s, root, NO_HOLE) && TablesApart(s, root) && UpperPage(va) && UpperPage(wa) && va != wa
    requires HasTable(s, root, va) && HasTable(s, root, wa)
    ensures !SameEntry(s.ph, root, va, wa)
  {
    hide Sane, TablesApart, SameEntry;
    EntriesApart(s, root, va, wa);
  }

  lemma SlotNumber(va: int)
    requires Address(va)
    ensures va / PAGE_SIZE == DirIndex(va) * ENTRIES + TableIndex(va)
  {
  }

  // ------------------------------------------------------------ single steps

  // The ledger after a mapping of va, which may have built a table.
  function Built(s: PageState, root: int, l: Ledger, va: int): Ledger
    requires WellFormed(s, root) && Address(va)
  {
    if HasTable(s, root, va) then l else l.(pages := l.pages[s.placement := NextFrame(s)])
  }

  // Nothing is mapped at va.
  ghost predicate Vacant(s: PageState, root: int, va: int)
    requires WellFormed(s, root)
  {
    UpperPage(va) && Walk(s.ph, root, va) == None
  }

  lemma VacantIsUnowned(s: PageState, root: int, l: Ledger, va: int)
    requires Good(s, root, l) && Vacant(s, root, va)
    ensures va !in l.pages
  {
  }

  // Frame f was free and has just been taken: it counts as reserved until it is mapped.
  lemma AllocKeepsGood(s: PageState, root: int, l: Ledger)
    requires Good(s, root, l) && !OutOfFrames(s)
    ensures var f := NextFrame(s); var a := AfterAlloc(s);
      && Good(a, root, l.(reserved := l.reserved + {f}))
      && f !in l.reserved && !HandedOut(l, f) && NotTable(a, root, f)
      && Used(a, f) && a.ph == s.ph && a.placement == s.placement && a.limit == s.limit
  {
    hide IsSet, NextFrame, OutOfFrames, Walk, WithSet;
    var f, a := NextFrame(s), AfterAlloc(s);
    var l' := l.(reserved := l.reserved + {f});
    NextFrameIsFree(s, root, NO_HOLE);
    AllocKeepsUsed(s, f);
    forall d | 0 <= d < ENTRIES && Present(Pde(a.ph, root, d))
      ensures TableOk(a, root, d) && TableOwned(l', FrameOf(Pde(a.ph, root, d)))
    {
      assert TableOk(s, root, d) && TableOwned(l, FrameOf(Pde(s.ph, root, d)));
      AllocKeepsUsed(s, FrameOf(Pde(a.ph, root, d)));
    }
    forall g ensures Used(a, g) <==> g in l'.reserved || HandedOut(l', g) {
      AllocKeepsUsed(s, g);
      assert HandedOut(l', g) <==> HandedOut(l, g);
    }
    forall va | va in l'.pages ensures PageOwned(a, root, va, l'.pages[va]) && l'.pages[va] !in l'.reserved {
      assert PageOwned(s, root, va, l.pages[va]);
      AllocKeepsUsed(s, l.pages[va]);
      assert HandedOut(l, l.pages[va]);
    }
  }

  // A table built for slot d of a vacant address: the ledger gains its placement page.
  lemma BuildKeepsGood(s: PageState, root: int, l: Ledger, d: int)
    requires Good(s, root, l) && PlacementReady(s, root) && 0 <= d < SELF
    requires !Present(Pde(s.ph, root, d)) && !OutOfFrames(s)
    requires Vacant(s, root, s.placement) && s.placement < PLACEMENT_END
    ensures Good(WithTable(s, root, d), root, l.(pages := l.pages[s.placement := NextFrame(s)]))
  {
    hide WithTable, NextFrame, IsSet, OutOfFrames, Walk, AfterAlloc;
    var f, r := NextFrame(s), WithTable(s, root, d);
    var l' := l.(pages := l.pages[s.placement := f]);
    TableBuilt(s, root, d);
    BuildKeepsSane(s, root, d);
    NextFrameIsFree(s, root, NO_HOLE);
    VacantIsUnowned(s, root, l, s.placement);
    assert !Used(s, f) && !HandedOut(l, f);
    BuildKeepsPages(s, root, l, d);
    forall g ensures Used(r, g) <==> g in l'.reserved || HandedOut(l', g) {
      AllocKeepsUsed(s, g);
      assert Used(r, g) <==> Used(AfterAlloc(s), g);
      HandedOutWith(l, s.placement, f, g);
    }
    forall e | 0 <= e < ENTRIES && Present(Pde(r.ph, root, e)) ensures TableOwned(l', FrameOf(Pde(r.ph, root, e))) {
      if e != d {
        assert TableOwned(l, FrameOf(Pde(s.ph, root, e)));
        TableOwnedWith(l, s.placement, f, FrameOf(Pde(s.ph, root, e)));
      } else {
        assert l'.pages[s.placement] == f;
      }
    }
    BuildKeepsTablesApart(s, root, d);
  }

  lemma BuildKeepsTablesApart(s: PageState, root: int, d: int)
    requires Sane(s, root, NO_HOLE) && TablesApart(s, root) && PlacementReady(s, root) && 0 <= d < SELF
    requires !Present(Pde(s.ph, root, d)) && !OutOfFrames(s)
    ensures TablesApart(WithTable(s, root, d), root)
  {
  }

  lemma HandedOutWith(l: Ledger, va: int, f: int, g: int)
    requires va !in l.pages
    ensures HandedOut(l.(pages := l.pages[va := f]), g) <==> g == f || HandedOut(l, g)
  {
    var l' := l.(pages := l.pages[va := f]);
    if HandedOut(l, g) {
      var wa :| wa in l.pages && l.pages[wa] == g;
      assert wa in l'.pages && l'.pages[wa] == g;
    }
    if g == f { assert l'.pages[va] == f; }
  }

  lemma TableOwnedWith(l: Ledger, va: int, f: int, g: int)
    requires va !in l.pages && TableOwned(l, g)
    ensures TableOwned(l.(pages := l.pages[va := f]), g)
  {
    if g !in l.reserved {
      var wa :| wa in l.pages && wa < PLACEMENT_END && l.pages[wa] == g;
      assert l.(pages := l.pages[va := f]).pages[wa] == g;
    }
  }

  // Building a table moves no page handed out before.
  lemma BuildKeepsPages(s: PageState, root: int, l: Ledger, d: int)
    requires Good(s, root, l) && PlacementReady(s, root) && 0 <= d < SELF
    requires !Present(Pde(s.ph, root, d)) && !OutOfFrames(s) && Vacant(s, root, s.placement)
    ensures var r := WithTable(s, root, d);
      && WellFormed(r, root) && PageOwned(r, root, s.placement, NextFrame(s))
      && forall va :: va in l.pages ==> PageOwned(r, root, va, l.pages[va])
  {
    hide WithTable, NextFrame, IsSet, OutOfFrames, Walk, AfterAlloc;
    var r := WithTable(s, root, d);
    TableBuilt(s, root, d);
    BuildKeepsSane(s, root, d);
    BuildMapsPlacement(s, root, d);
    AllocKeepsUsed(s, NextFrame(s));
    forall va | va in l.pages ensures PageOwned(r, root, va, l.pages[va]) {
      assert PageOwned(s, root, va, l.pages[va]);
      AllocKeepsUsed(s, l.pages[va]);
      MappedHasTable(s, root, va);
      VacantIsUnowned(s, root, l, s.placement);
      UpperEntriesApart(s, root, s.placement, va);
      BuildKeepsOthers(s, root, d, va);
    }
  }

  lemma MappedHasTable(s: PageState, root: int, va: int)
    requires WellFormed(s, root) && Address(va) && Walk(s.ph, root, va).Some?
    ensures HasTable(s, root, va) && Present(Slot(s, root, va))
    ensures PhysicalOf(Walk(s.ph, root, va)) == Some(FrameOf(Slot(s, root, va)) * PAGE_SIZE + Offset(va))
  {
  }

  lemma BuildMapsPlacement(s: PageState, root: int, d: int)
    requires Sane(s, root, NO_HOLE) && PlacementReady(s, root) && 0 <= d < SELF
    requires !Present(Pde(s.ph, root, d)) && !OutOfFrames(s)
    ensures Walk(WithTable(s, root, d).ph, root, s.placement) == KernelPage(NextFrame(s) * PAGE_SIZE)
  {
    hide WithTable, NextFrame;
    IndicesOf(s.placement);
    OffsetOf(s.placement, 0);
    TableBuilt(s, root, d);
  }

  /** Mapping a frame that is in use at a vacant page keeps the ledger exact. */
  lemma MapKeepsGood(s: PageState, root: int, l: Ledger, pa: int, va: int, rw: bool, user: bool)
    requires Good(s, root, l) && Address(pa) && UpperPage(va) && Vacant(s, root, va) && Address(s.placement)
    requires CanMap(s, root, pa, va)
    requires HasTable(s, root, va) ||
      (PlacementReady(s, root) && Vacant(s, root, s.placement) && s.placement < PLACEMENT_END && s.placement != va)
    ensures Good(AfterMap(s, root, pa, va, rw, user), root, Built(s, root, l, va))
    ensures va !in Built(s, root, l, va).pages
  {
    hide WithTable, NextFrame, IsSet, OutOfFrames, Walk, WithPte;
    VacantIsUnowned(s, root, l, va);
    IndicesOf(va);
    if HasTable(s, root, va) {
      PteKeepsGood(s, root, l, va, pa / PAGE_SIZE, rw, user);
    } else {
      var s1, l1 := WithTable(s, root, DirIndex(va)), Built(s, root, l, va);
      BuildKeepsGood(s, root, l, DirIndex(va));
      TableBuilt(s, root, DirIndex(va));
      PteKeepsGood(s1, root, l1, va, pa / PAGE_SIZE, rw, user);
    }
  }

  // Writing the entry of a page not handed out keeps the ledger exact.
  lemma PteKeepsGood(s: PageState, root: int, l: Ledger, va: int, frame: int, rw: bool, user: bool)
    requires Good(s, root, l) && UpperPage(va) && HasTable(s, root, va) && va !in l.pages && 0 <= frame < FRAMES
    ensures Good(s.(ph := WithPte(s.ph, root, va, frame, rw, user)), root, l)
  {
    hide NextFrame, IsSet, Walk, WithPte;
    var s' := s.(ph := WithPte(s.ph, root, va, frame, rw, user));
    IndicesOf(va);
    PteKeepsDirectory(s, root, NO_HOLE, va, frame, rw, user);
    forall wa | wa in l.pages ensures PageOwned(s', root, wa, l.pages[wa]) {
      assert PageOwned(s, root, wa, l.pages[wa]);
      MappedHasTable(s, root, wa);
      UpperEntriesApart(s, root, va, wa);
      PteKeepsOthers(s, root, va, frame, rw, user, wa);
    }
    forall d | 0 <= d < ENTRIES && Present(Pde(s'.ph, root, d)) ensures TableOwned(l, FrameOf(Pde(s'.ph, root, d))) {
      assert TableOwned(l, FrameOf(Pde(s.ph, root, d)));
    }
    forall d, e | 0 <= d < e < SELF && HaveTables(s', root, d, e) && (d, e) != (0, BOOT_SLOT)
      ensures FrameOf(Pde(s'.ph, root, d)) != FrameOf(Pde(s'.ph, root, e))
    {
      assert HaveTables(s, root, d, e);
    }
  }

  // ------------------------------------------------- pages of the kernel heap

  // Takes the lowest free frame and maps it at va.
  function AfterMapNew(s: PageState, root: int, va: int): PageState
    requires WellFormed(s, root) && Address(s.placement) && Address(va) && !OutOfFrames(s)
    requires CanMap(AfterAlloc(s), root, NextFrame(s) * PAGE_SIZE, va)
  {
    AfterMap(AfterAlloc(s), root, NextFrame(s) * PAGE_SIZE, va, true, false)
  }

  // The ledger after that: a frame for va, and another for the table it may have needed.
  function WithNewPage(s: PageState, root: int, l: Ledger, va: int): Ledger
    requires WellFormed(s, root) && Address(va) && !OutOfFrames(s)
  {
    var l1 := Built(AfterAlloc(s), root, l, va);
    l1.(pages := l1.pages[va := NextFrame(s)])
  }

  // va is free to be mapped, and so is the placement page a table for it would need.
  ghost predicate Ready(s: PageState, root: int, va: int)
    requires WellFormed(s, root)
  {
    && Vacant(s, root, va) && Address(s.placement)
    && (HasTable(s, root, va) ||
        (PlacementReady(s, root) && Vacant(s, root, s.placement) && s.placement < PLACEMENT_END && s.placement != va))
  }

  /** With va free, the only thing that can keep a new page from being mapped there is
      that the frames run out. */
  lemma OnlyFramesRunOut(s: PageState, root: int, l: Ledger, va: int)
    requires Good(s, root, l) && Ready(s, root, va) && !OutOfFrames(s)
    ensures CanMap(AfterAlloc(s), root, NextFrame(s) * PAGE_SIZE, va)
        <==> HasTable(s, root, va) || !OutOfFrames(AfterAlloc(s))
  {
    hide NextFrame, IsSet, OutOfFrames;
    AllocKeepsGood(s, root, l);
    assert (NextFrame(s) * PAGE_SIZE) % PAGE_SIZE == 0 && NextFrame(s) * PAGE_SIZE / PAGE_SIZE == NextFrame(s);
    IndicesOf(va);
    IndicesOf(s.placement);
  }

  lemma MapNewKeepsGood(s: PageState, root: int, l: Ledger, va: int)
    requires Good(s, root, l) && Ready(s, root, va) && !OutOfFrames(s)
    requires CanMap(AfterAlloc(s), root, NextFrame(s) * PAGE_SIZE, va)
    ensures Good(AfterMapNew(s, root, va), root, WithNewPage(s, root, l, va))
  {
    hide NextFrame, IsSet, OutOfFrames, Walk, WithTable, AfterAlloc, Good, Built, CanMap;
    GoodIsSane(s, root, l);
    var f, a := NextFrame(s), AfterAlloc(s);
    var l0 := l.(reserved := l.reserved + {f});
    AllocKeepsGood(s, root, l);
    GoodIsSane(a, root, l0);
    ReadyAfterAlloc(s, root, l, va);
    MapKeepsGood(a, root, l0, f * PAGE_SIZE, va, true, false);
    var s1, l1 := AfterMapNew(s, root, va), Built(a, root, l0, va);
    OffsetOf(va, 0);
    MapReaches(a, root, f * PAGE_SIZE, va, true, false, 0);
    NotTableAfterMap(a, root, l0, f, va);
    BuiltReserves(a, root, l, va, f);
    NextFrameIsFree(s, root, NO_HOLE);
    LimitAfterMap(a, root, f * PAGE_SIZE, va, true, false);
    Claim(s1, root, l1, va, f);
  }

  lemma GoodIsSane(s: PageState, root: int, l: Ledger)
    requires Good(s, root, l)
    ensures Sane(s, root, NO_HOLE) && TablesApart(s, root) && Exact(s, root, l)
  {
  }

  lemma ReadyAfterAlloc(s: PageState, root: int, l: Ledger, va: int)
    requires Good(s, root, l) && Ready(s, root, va) && !OutOfFrames(s)
    ensures WellFormed(AfterAlloc(s), root) && Ready(AfterAlloc(s), root, va)
  {
  }

  lemma BuiltReserves(s: PageState, root: int, l: Ledger, va: int, f: int)
    requires WellFormed(s, root) && Address(va) && f !in l.reserved
    ensures var l0 := l.(reserved := l.reserved + {f}); var l1 := Built(s, root, l0, va);
      l1.reserved == l.reserved + {f} && l1.(reserved := l1.reserved - {f}) == Built(s, root, l, va)
  {
  }

  // The frame mapped last holds no table.
  lemma NotTableAfterMap(s: PageState, root: int, l: Ledger, f: int, va: int)
    requires Sane(s, root, NO_HOLE) && Used(s, f) && NotTable(s, root, f) && Ready(s, root, va)
    requires CanMap(s, root, f * PAGE_SIZE, va)
    ensures WellFormed(AfterMap(s, root, f * PAGE_SIZE, va, true, false), root)
    ensures NotTable(AfterMap(s, root, f * PAGE_SIZE, va, true, false), root, f)
  {
    hide NextFrame, IsSet, OutOfFrames, Walk, WithTable;
    IndicesOf(va);
    var d := DirIndex(va);
    MapKeepsSane(s, root, f * PAGE_SIZE, va, true, false);
    if HasTable(s, root, va) {
      PteKeepsDirectory(s, root, NO_HOLE, va, f, true, false);
    } else {
      TableBuilt(s, root, d);
      BuildKeepsSane(s, root, d);
      NextFrameIsFree(s, root, NO_HOLE);
      PteKeepsDirectory(WithTable(s, root, d), root, NO_HOLE, va, f, true, false);
    }
  }

  // A reserved frame that holds no table becomes the frame of the page it is mapped at.
  lemma Claim(s: PageState, root: int, l: Ledger, va: int, f: int)
    requires Good(s, root, l) && f in l.reserved && NotTable(s, root, f) && UpperPage(va) && va !in l.pages
    requires Walk(s.ph, root, va) == KernelPage(f * PAGE_SIZE) && f < s.limit
    ensures Good(s, root, Ledger(l.pages[va := f], l.reserved - {f}))
  {
    hide IsSet, Walk;
    var l' := Ledger(l.pages[va := f], l.reserved - {f});
    forall g ensures Used(s, g) <==> g in l'.reserved || HandedOut(l', g) {
      HandedOutWith(l, va, f, g);
      assert HandedOut(l.(pages := l.pages[va := f]), g) <==> HandedOut(l', g);
    }
    forall d | 0 <= d < ENTRIES && Present(Pde(s.ph, root, d)) ensures TableOwned(l', FrameOf(Pde(s.ph, root, d))) {
      var t := FrameOf(Pde(s.ph, root, d));
      assert TableOwned(l, t) && t != f;
      if t !in l.reserved {
        var wa :| wa in l.pages && wa < PLACEMENT_END && l.pages[wa] == t;
        assert l'.pages[wa] == t;
      }
    }
    forall wa | wa in l'.pages
      ensures PageOwned(s, root, wa, l'.pages[wa]) && l'.pages[wa] !in l'.reserved && l'.pages[wa] < s.limit
    {
      if wa != va { assert PageOwned(s, root, wa, l.pages[wa]); }
      else { assert Used(s, f); }
    }
  }

  // ------------------------------------------------------ giving a page back

  function AfterUnmapFree(s: PageState, root: int, va: int, f: int): PageState
    requires WellFormed(s, root) && Address(va) && 0 <= f < MAX_FRAMES
  {
    AfterUnmap(s, root, va).(bits := WithClear(s.bits, f))
  }

  function WithoutPage(l: Ledger, va: int): Ledger { l.(pages := l.pages - {va}) }

  lemma HeapFrameIsNoTable(s: PageState, root: int, l: Ledger, va: int)
    requires Good(s, root, l) && va in l.pages && PLACEMENT_END <= va
    ensures NotTable(s, root, l.pages[va]) && l.pages[va] != root
  {
    forall d | 0 <= d < ENTRIES && Present(Pde(s.ph, root, d)) ensures FrameOf(Pde(s.ph, root, d)) != l.pages[va] {
      assert TableOwned(l, FrameOf(Pde(s.ph, root, d)));
    }
  }

  // Giving up frame f keeps everything but f in use.
  lemma ClearKeepsUsed(s: PageState, f: int, g: int)
    requires |s.bits| == BITMAP_WORDS && 0 <= f < MAX_FRAMES
    ensures |WithClear(s.bits, f)| == BITMAP_WORDS
    ensures Used(s.(bits := WithClear(s.bits, f)), g) <==> g != f && Used(s, g)
  {
    if 0 <= g < MAX_FRAMES { ClearChangesOne(s.bits, f, g); }
  }

  /** Unmapping a page of the kernel heap and freeing its frame clears exactly that bit
      and that translation. */
  lemma UnmapFreeKeepsGood(s: PageState, root: int, l: Ledger, va: int)
    requires Good(s, root, l) && va in l.pages && PLACEMENT_END <= va
    ensures Address(va) && 0 <= l.pages[va] < MAX_FRAMES && HasTable(s, root, va)
    ensures Good(AfterUnmapFree(s, root, va, l.pages[va]), root, WithoutPage(l, va))
    ensures Vacant(AfterUnmapFree(s, root, va, l.pages[va]), root, va)
  {
    hide IsSet, Walk, WithClear;
    assert PageOwned(s, root, va, l.pages[va]);
    MappedHasTable(s, root, va);
    IndicesOf(va);
    var f, l' := l.pages[va], WithoutPage(l, va);
    var u, r := AfterUnmap(s, root, va), AfterUnmapFree(s, root, va, f);
    HeapFrameIsNoTable(s, root, l, va);
    UnmapKeepsSane(s, root, va);
    UnmapRemoves(s, root, va, va);
    ClearKeepsUsed(u, f, f);
    forall d | 0 <= d < ENTRIES && Present(Pde(r.ph, root, d))
      ensures TableOk(r, root, d) && TableOwned(l', FrameOf(Pde(r.ph, root, d)))
    {
      ClearKeepsUsed(u, f, FrameOf(Pde(r.ph, root, d)));
      assert TableOk(u, root, d);
      TableStaysOwned(l, va, FrameOf(Pde(s.ph, root, d)));
    }
    forall wa | wa in l'.pages ensures PageOwned(r, root, wa, l'.pages[wa]) {
      assert PageOwned(s, root, wa, l.pages[wa]);
      MappedHasTable(s, root, wa);
      UpperEntriesApart(s, root, va, wa);
      UnmapRemoves(s, root, va, wa);
      ClearKeepsUsed(u, f, l.pages[wa]);
    }
    forall g ensures Used(r, g) <==> g in l'.reserved || HandedOut(l', g) {
      ClearKeepsUsed(u, f, g);
      HandedOutWithout(l, va, g);
    }
    forall d, e | 0 <= d < e < SELF && HaveTables(r, root, d, e) && (d, e) != (0, BOOT_SLOT)
      ensures FrameOf(Pde(r.ph, root, d)) != FrameOf(Pde(r.ph, root, e))
    {
      assert HaveTables(s, root, d, e);
    }
  }

  // Pages of the kernel heap acquired and given back, one at a time.
  datatype PageStep = Take(va: int) | Give(va: int)

  ghost predicate PageStepped(s: PageState, l: Ledger, step: PageStep, r: PageState, k: Ledger, root: int) {
    && Good(s, root, l) && PLACEMENT_END <= step.va && Address(step.va)
    && match step
      case Take(va) =>
        && Ready(s, root, va) && !OutOfFrames(s) && CanMap(AfterAlloc(s), root, NextFrame(s) * PAGE_SIZE, va)
        && r == AfterMapNew(s, root, va) && k == WithNewPage(s, root, l, va)
      case Give(va) =>
        && va in l.pages && 0 <= l.pages[va] < MAX_FRAMES
        && r == AfterUnmapFree(s, root, va, l.pages[va]) && k == WithoutPage(l, va)
  }

  ghost predicate PageSteps(s: PageState, l: Ledger, steps: seq<PageStep>, r: PageState, k: Ledger, root: int)
    decreases |steps|
  {
    if steps == [] then r == s && k == l
    else
      var n := |steps| - 1;
      exists t, m :: PageSteps(s, l, steps[..n], t, m, root) && PageStepped(t, m, steps[n], r, k, root)
  }

  // n pages from lo on acquired, and then those of a block given back.
  ghost predicate Paged(s: PageState, l: Ledger, lo: int, n: int, r: PageState, k: Ledger, root: int) {
    0 <= n && exists t, m :: PageSteps(s, l, Takes(lo, n), t, m, root) && GivenBack(t, m, r, k, root)
  }

  ghost predicate GivenBack(s: PageState, l: Ledger, r: PageState, k: Ledger, root: int) {
    exists block, pages: nat :: PageSteps(s, l, Gives(block, pages, pages), r, k, root)
  }

  lemma NoPages(s: PageState, l: Ledger, lo: int, root: int)
    ensures PageSteps(s, l, Takes(lo, 0), s, l, root) && GivenBack(s, l, s, l, root)
  {
    assert PageSteps(s, l, Gives(0, 0, 0), s, l, root);
  }

  lemma PagedBy(s: PageState, l: Ledger, lo: int, n: int, t: PageState, m: Ledger, r: PageState, k: Ledger, root: int)
    requires 0 <= n && PageSteps(s, l, Takes(lo, n), t, m, root) && GivenBack(t, m, r, k, root)
    ensures Paged(s, l, lo, n, r, k, root)
  {
  }

  lemma GivenBackBy(s: PageState, l: Ledger, block: int, pages: nat, r: PageState, k: Ledger, root: int)
    requires PageSteps(s, l, Gives(block, pages, pages), r, k, root)
    ensures GivenBack(s, l, r, k, root)
  {
  }

  lemma OneStepMore(s: PageState, l: Ledger, steps: seq<PageStep>, t: PageState, m: Ledger, step: PageStep,
                    r: PageState, k: Ledger, root: int)
    requires PageSteps(s, l, steps, t, m, root) && PageStepped(t, m, step, r, k, root)
    ensures PageSteps(s, l, steps + [step], r, k, root)
  {
    hide PageStepped;
    var more := steps + [step];
    assert more[..|more| - 1] == steps && more[|more| - 1] == step;
  }

  // The n pages from start on, in order, and those of a block of n pages from the top down,
  // as far as done of them.
  function Takes(start: int, n: nat): (steps: seq<PageStep>)
    ensures |steps| == n
  {
    seq(n, i => Take(start + i * PAGE_SIZE))
  }

  function Gives(block: int, n: int, done: nat): (steps: seq<PageStep>)
    ensures |steps| == done
  {
    seq(done, i => Give(block + (n - 1 - i) * PAGE_SIZE))
  }

  lemma TakesMore(start: int, n: nat)
    ensures Takes(start, n) + [Take(start + n * PAGE_SIZE)] == Takes(start, n + 1)
  {
  }

  lemma GivesMore(block: int, n: int, done: nat)
    ensures Gives(block, n, done) + [Give(block + (n - 1 - done) * PAGE_SIZE)] == Gives(block, n, done + 1)
  {
  }

  lemma TableStaysOwned(l: Ledger, va: int, t: int)
    requires PLACEMENT_END <= va && TableOwned(l, t)
    ensures TableOwned(WithoutPage(l, va), t)
  {
    if t !in l.reserved {
      var wa :| wa in l.pages && wa < PLACEMENT_END && l.pages[wa] == t;
      assert WithoutPage(l, va).pages[wa] == t;
    }
  }

  lemma HandedOutWithout(l: Ledger, va: int, g: int)
    requires va in l.pages
    requires forall x, y :: x in l.pages && y in l.pages && x != y ==> l.pages[x] != l.pages[y]
    ensures HandedOut(WithoutPage(l, va), g) <==> g != l.pages[va] && HandedOut(l, g)
  {
    if g != l.pages[va] && HandedOut(l, g) {
      var wa :| wa in l.pages && l.pages[wa] == g;
      assert WithoutPage(l, va).pages[wa] == g;
    }
  }

  // --------------------------------------------------------- free addresses

  // No page in [lo, hi) is mapped.
  ghost predicate AllVacant(s: PageState, root: int, lo: int, hi: int)
    requires WellFormed(s, root)
  {
    forall va :: UpperPage(va) && lo <= va < hi ==> Vacant(s, root, va)
  }

  lemma WalkOffset(s: PageState, root: int, va: int, o: int)
    requires WellFormed(s, root) && UpperPage(va) && Walk(s.ph, root, va).Some? && 0 <= o < PAGE_SIZE
    ensures Address(va + o) && var r := Walk(s.ph, root, va).value; Walk(s.ph, root, va + o) == Some(r.(pa := r.pa + o))
  {
    OffsetOf(va, o);
    OffsetOf(va, 0);
  }

  // What a mapping changes is the page mapped and, if a table is built, the page that is
  // mapped at.
  lemma WalkStays(s: PageState, root: int, pa: int, va: int, rw: bool, user: bool, wa: int)
    requires Sane(s, root, NO_HOLE) && TablesApart(s, root) && Address(pa) && Ready(s, root, va)
    requires CanMap(s, root, pa, va) && Page(wa) && !Near(wa, va, va + PAGE_SIZE)
    requires !HasTable(s, root, va) ==> !Near(wa, s.placement, s.placement + PAGE_SIZE)
    ensures WellFormed(AfterMap(s, root, pa, va, rw, user), root)
    ensures Walk(AfterMap(s, root, pa, va, rw, user).ph, root, wa) == Walk(s.ph, root, wa)
  {
    hide WithTable, NextFrame, IsSet, OutOfFrames, WithPte, CanMap;
    IndicesOf(va);
    IndicesOf(wa);
    MapKeepsSane(s, root, pa, va, rw, user);
    if HasTable(s, root, wa) {
      if HasTable(s, root, va) { EntriesApart(s, root, va, wa); } else { EntriesApart(s, root, s.placement, wa); }
      MapKeepsOthers(s, root, pa, va, rw, user, wa);
    } else {
      NoTableStaysVacant(s, root, pa, va, rw, user, wa);
    }
  }

  lemma StaysVacant(s: PageState, root: int, pa: int, va: int, rw: bool, user: bool, wa: int)
    requires Sane(s, root, NO_HOLE) && TablesApart(s, root) && Address(pa) && Ready(s, root, va)
    requires CanMap(s, root, pa, va) && Vacant(s, root, wa) && wa != va
    requires !HasTable(s, root, va) ==> wa != s.placement
    ensures WellFormed(AfterMap(s, root, pa, va, rw, user), root)
    ensures Vacant(AfterMap(s, root, pa, va, rw, user), root, wa)
  {
    hide AfterMap, CanMap, Walk, Near;
    NotNear(va, wa);
    if !HasTable(s, root, va) { NotNear(s.placement, wa); }
    WalkStays(s, root, pa, va, rw, user, wa);
  }

  lemma NotNear(va: int, wa: int)
    requires UpperPage(va) && UpperPage(wa) && va != wa
    ensures !Near(wa, va, va + PAGE_SIZE)
  {
  }

  // A mapping of another page leaves this one alone.
  lemma StaysMapped(s: PageState, root: int, pa: int, va: int, rw: bool, user: bool, wa: int)
    requires Sane(s, root, NO_HOLE) && TablesApart(s, root) && Address(pa) && Ready(s, root, va)
    requires CanMap(s, root, pa, va) && UpperPage(wa) && Walk(s.ph, root, wa).Some?
    ensures IsPhys(AfterMap(s, root, pa, va, rw, user).ph)
    ensures Walk(AfterMap(s, root, pa, va, rw, user).ph, root, wa) == Walk(s.ph, root, wa)
  {
    hide AfterMap, CanMap, Walk, Near;
    NotNear(va, wa);
    if !HasTable(s, root, va) { NotNear(s.placement, wa); }
    WalkStays(s, root, pa, va, rw, user, wa);
  }

  lemma NoTableStaysVacant(s: PageState, root: int, pa: int, va: int, rw: bool, user: bool, wa: int)
    requires Sane(s, root, NO_HOLE) && Address(pa) && Ready(s, root, va)
    requires CanMap(s, root, pa, va) && Page(wa) && !HasTable(s, root, wa) && wa != va
    ensures Walk(AfterMap(s, root, pa, va, rw, user).ph, root, wa) == None
  {
    hide WithTable, NextFrame, IsSet, OutOfFrames, Read, TableOk, SelfMapped, FrameOf;
    IndicesOf(va);
    IndicesOf(wa);
    var d := DirIndex(va);
    if HasTable(s, root, va) {
      PteKeepsDirectory(s, root, NO_HOLE, va, pa / PAGE_SIZE, rw, user);
    } else {
      TableBuilt(s, root, d);
      BuildKeepsSane(s, root, d);
      PteKeepsDirectory(WithTable(s, root, d), root, NO_HOLE, va, pa / PAGE_SIZE, rw, user);
      if DirIndex(wa) == d {
        SlotNumber(va);
        SlotNumber(wa);
      }
    }
  }

  /** Mapping a page leaves every free range free that it does not itself lie in. */
  lemma MapKeepsVacant(s: PageState, root: int, pa: int, va: int, rw: bool, user: bool, lo: int, hi: int)
    requires Sane(s, root, NO_HOLE) && TablesApart(s, root) && Address(pa) && Ready(s, root, va)
    requires CanMap(s, root, pa, va) && AllVacant(s, root, lo, hi) && !(lo <= va < hi)
    requires !HasTable(s, root, va) ==> !(lo <= s.placement < hi)
    ensures WellFormed(AfterMap(s, root, pa, va, rw, user), root)
    ensures AllVacant(AfterMap(s, root, pa, va, rw, user), root, lo, hi)
  {
    MapKeepsSane(s, root, pa, va, rw, user);
    forall wa | UpperPage(wa) && lo <= wa < hi ensures Vacant(AfterMap(s, root, pa, va, rw, user), root, wa) {
      StaysVacant(s, root, pa, va, rw, user, wa);
    }
  }

  lemma UnmapKeepsVacant(s: PageState, root: int, l: Ledger, va: int, lo: int, hi: int)
    requires Good(s, root, l) && va in l.pages && PLACEMENT_END <= va && AllVacant(s, root, lo, hi)
    requires Address(va) && 0 <= l.pages[va] < MAX_FRAMES
    ensures WellFormed(AfterUnmapFree(s, root, va, l.pages[va]), root)
    ensures AllVacant(AfterUnmapFree(s, root, va, l.pages[va]), root, lo, hi)
  {
    hide IsSet, Walk, WithClear;
    UnmapFreeKeepsGood(s, root, l, va);
    assert PageOwned(s, root, va, l.pages[va]);
    MappedHasTable(s, root, va);
    forall wa | UpperPage(wa) && lo <= wa < hi
      ensures Vacant(AfterUnmapFree(s, root, va, l.pages[va]), root, wa)
    {
      assert Vacant(s, root, wa);
      UnmapRemoves(s, root, va, wa);
    }
  }

  // ----------------------------------------------------- what is left alone

  /** From s to r no page below the windows changes its translation, mapped or not, but for
      those in [lo, hi), those the placement heap has moved over, and their doubles in slot 0. */
  ghost predicate Undisturbed(s: PageState, r: PageState, root: int, lo: int, hi: int)
    requires IsPhys(s.ph) && IsPhys(r.ph) && 0 <= root < FRAMES
  {
    && s.placement <= r.placement
    && forall wa :: Page(wa) && !Near(wa, lo, hi) && !Near(wa, s.placement, r.placement) ==>
      Walk(r.ph, root, wa) == Walk(s.ph, root, wa)
  }

  lemma MapUndisturbs(s: PageState, root: int, pa: int, va: int, rw: bool, user: bool)
    requires Sane(s, root, NO_HOLE) && TablesApart(s, root) && Address(pa) && Ready(s, root, va)
    requires CanMap(s, root, pa, va)
    ensures IsPhys(AfterMap(s, root, pa, va, rw, user).ph)
    ensures Undisturbed(s, AfterMap(s, root, pa, va, rw, user), root, va, va + PAGE_SIZE)
  {
    hide WithPte, NextFrame, IsSet, OutOfFrames, Walk, CanMap;
    var r := AfterMap(s, root, pa, va, rw, user);
    MapKeepsSane(s, root, pa, va, rw, user);
    PlacementAfterMap(s, root, pa, va, rw, user);
    forall wa | Page(wa) && !Near(wa, va, va + PAGE_SIZE) && !Near(wa, s.placement, r.placement)
      ensures Walk(r.ph, root, wa) == Walk(s.ph, root, wa)
    {
      WalkStays(s, root, pa, va, rw, user, wa);
    }
  }

  lemma MapKeepsUsed(s: PageState, root: int, pa: int, va: int, rw: bool, user: bool)
    requires Sane(s, root, NO_HOLE) && Ready(s, root, va) && Address(pa) && CanMap(s, root, pa, va)
    ensures var r := AfterMap(s, root, pa, va, rw, user);
      |r.bits| == BITMAP_WORDS && forall f :: Used(s, f) ==> Used(r, f)
    ensures HasTable(s, root, va) || !OutOfFrames(s)
  {
    hide IsSet, NextFrame, WithTable, WithPte, OutOfFrames, Walk;
    IndicesOf(va);
    if !HasTable(s, root, va) {
      TableBuilt(s, root, DirIndex(va));
      AllocKeepsUsed(s, 0);
      forall f | Used(s, f) ensures Used(AfterAlloc(s), f) { AllocKeepsUsed(s, f); }
    }
  }

  lemma PlacementAfterMap(s: PageState, root: int, pa: int, va: int, rw: bool, user: bool)
    requires Sane(s, root, NO_HOLE) && Address(pa) && Ready(s, root, va) && CanMap(s, root, pa, va)
    ensures AfterMap(s, root, pa, va, rw, user).placement ==
      if HasTable(s, root, va) then s.placement else s.placement + PAGE_SIZE
  {
  }

  lemma LimitAfterMap(s: PageState, root: int, pa: int, va: int, rw: bool, user: bool)
    requires Sane(s, root, NO_HOLE) && Address(pa) && Ready(s, root, va) && CanMap(s, root, pa, va)
    ensures AfterMap(s, root, pa, va, rw, user).limit == s.limit
  {
  }

  lemma UnmapUndisturbs(s: PageState, root: int, l: Ledger, va: int)
    requires Good(s, root, l) && va in l.pages && PLACEMENT_END <= va
    requires Address(va) && 0 <= l.pages[va] < MAX_FRAMES
    ensures IsPhys(AfterUnmapFree(s, root, va, l.pages[va]).ph)
    ensures Undisturbed(s, AfterUnmapFree(s, root, va, l.pages[va]), root, va, va + PAGE_SIZE)
  {
    hide IsSet, WithClear, Walk;
    var r := AfterUnmapFree(s, root, va, l.pages[va]);
    assert PageOwned(s, root, va, l.pages[va]);
    MappedHasTable(s, root, va);
    forall wa | Page(wa) && !Near(wa, va, va + PAGE_SIZE) ensures Walk(r.ph, root, wa) == Walk(s.ph, root, wa) {
      UnmapRemoves(s, root, va, wa);
      if Walk(s.ph, root, wa).Some? {
        MappedHasTable(s, root, wa);
        EntriesApart(s, root, va, wa);
      }
    }
  }

  lemma UndisturbedTwice(s: PageState, r: PageState, t: PageState, root: int, lo: int, mid: int, hi: int)
    requires IsPhys(s.ph) && IsPhys(r.ph) && IsPhys(t.ph) && 0 <= root < FRAMES && lo <= mid <= hi
    requires (Undisturbed(s, r, root, lo, mid) && Undisturbed(r, t, root, mid, hi))
          || (Undisturbed(s, r, root, mid, hi) && Undisturbed(r, t, root, lo, mid))
    ensures Undisturbed(s, t, root, lo, hi)
  {
    hide Walk;
  }

  lemma UndisturbedWider(s: PageState, r: PageState, root: int, lo: int, hi: int, lo': int, hi': int)
    requires IsPhys(s.ph) && IsPhys(r.ph) && 0 <= root < FRAMES
    requires Undisturbed(s, r, root, lo, hi) && ((lo' <= lo && hi <= hi') || lo == hi)
    ensures Undisturbed(s, r, root, lo', hi')
  {
    hide Walk;
  }

  lemma UndisturbedAgain(s: PageState, r: PageState, t: PageState, root: int, lo: int, hi: int)
    requires IsPhys(s.ph) && IsPhys(r.ph) && IsPhys(t.ph) && 0 <= root < FRAMES
    requires Undisturbed(s, r, root, lo, hi) && Undisturbed(r, t, root, lo, hi)
    ensures Undisturbed(s, t, root, lo, hi)
  {
    hide Walk;
  }

  lemma VacantUndisturbed(s: PageState, r: PageState, root: int, lo: int, hi: int, a: int, b: int)
    requires WellFormed(s, root) && WellFormed(r, root) && Undisturbed(s, r, root, lo, hi) && AllVacant(s, root, a, b)
    requires (hi <= a || b <= lo) && (r.placement <= a || b <= s.placement)
    ensures AllVacant(r, root, a, b)
  {
    hide Walk;
    forall wa | UpperPage(wa) && a <= wa < b ensures Vacant(r, root, wa) {
      assert Vacant(s, root, wa);
    }
  }

  // --------------------------------------------------------- counting frames

  function FreeFrames(s: PageState): set<int>
    requires |s.bits| == BITMAP_WORDS
  {
    set f | 0 <= f < s.limit && !Used(s, f)
  }

  lemma AllocTakesOne(s: PageState)
    requires |s.bits| == BITMAP_WORDS && s.limit <= MAX_FRAMES
    ensures OutOfFrames(s) <==> FreeFrames(s) == {}
    ensures !OutOfFrames(s) ==>
      |FreeFrames(s)| > 0 && |FreeFrames(AfterAlloc(s))| == |FreeFrames(s)| - 1
  {
    var f := NextFrame(s);
    if OutOfFrames(s) {
      assert forall g :: 0 <= g < s.limit ==> Used(s, g);
    } else {
      assert f in FreeFrames(s);
      forall g ensures g in FreeFrames(AfterAlloc(s)) <==> g in FreeFrames(s) - {f} {
        AllocKeepsUsed(s, g);
      }
      assert FreeFrames(AfterAlloc(s)) == FreeFrames(s) - {f};
    }
  }

  /** Unmapping a page of the heap and freeing its frame gives back exactly that one. */
  lemma UnmapFreesOne(s: PageState, root: int, l: Ledger, va: int)
    requires Good(s, root, l) && va in l.pages && Address(va) && 0 <= l.pages[va] < MAX_FRAMES
    ensures var r := AfterUnmapFree(s, root, va, l.pages[va]);
      |r.bits| == BITMAP_WORDS && |FreeFrames(r)| == |FreeFrames(s)| + 1
  {
    hide IsSet, WithClear, Walk;
    var f := l.pages[va];
    var r := AfterUnmapFree(s, root, va, f);
    ClearKeepsUsed(s, f, 0);
    assert PageOwned(s, root, va, f);
    forall g ensures g in FreeFrames(r) <==> g in FreeFrames(s) + {f} {
      ClearKeepsUsed(s, f, g);
    }
    assert FreeFrames(r) == FreeFrames(s) + {f} && f !in FreeFrames(s);
  }
}
