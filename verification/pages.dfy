/** The state of the page-frame allocator and the page tables, what mapping and
    unmapping a page makes of it, and what that means for translation. */
module Pages {
  import opened Machine
  import opened Bitmaps
  import opened Mmu

  const BITMAP_WORDS := 1024
  const MAX_FRAMES := 32 * BITMAP_WORDS       // 128 MiB
  const NO_HOLE := ENTRIES

  // Physical memory, the frame bitmap and how much of it is in use, and the next
  // free address of the placement heap.  root is the frame of the directory.
  datatype PageState = PageState(ph: Phys, bits: seq<bv32>, limit: nat, placement: int)

  ghost predicate WellFormed(s: PageState, root: int) {
    && IsPhys(s.ph) && 0 <= root < FRAMES && |s.bits| == BITMAP_WORDS && s.limit <= MAX_FRAMES
    && s.placement % PAGE_SIZE == 0 && 0 <= s.placement <= TABLE_WINDOW
  }

  predicate Used(s: PageState, frame: int)
    requires |s.bits| == BITMAP_WORDS
  {
    0 <= frame < MAX_FRAMES && IsSet(s.bits, frame)
  }

  // The table behind directory slot d is a frame in use, and not the directory; what access
  // its pages give is left to its entries.
  ghost predicate TableOk(s: PageState, root: int, d: int)
    requires WellFormed(s, root) && 0 <= d < ENTRIES
  {
    var f := FrameOf(Pde(s.ph, root, d));
    && Used(s, f) && (d != SELF ==> f != root)
    && Writable(Pde(s.ph, root, d)) && ForUser(Pde(s.ph, root, d))
  }

  /** Every present directory slot, but for one that is being filled in, leads to a
      frame that is in use, and the last one to the directory itself. */
  ghost predicate Sane(s: PageState, root: int, hole: int) {
    && WellFormed(s, root) && SelfMapped(s.ph, root) && hole != SELF
    && forall d :: 0 <= d < ENTRIES && d != hole && Present(Pde(s.ph, root, d)) ==> TableOk(s, root, d)
  }

  // va has a page table.
  predicate HasTable(s: PageState, root: int, va: int)
    requires IsPhys(s.ph) && 0 <= root < FRAMES && Address(va)
  {
    Present(Pde(s.ph, root, DirIndex(va)))
  }

  function Slot(s: PageState, root: int, va: int): Word32
    requires IsPhys(s.ph) && 0 <= root < FRAMES && Address(va)
  {
    Pte(s.ph, root, DirIndex(va), TableIndex(va))
  }

  // ------------------------------------------------------------------ frames

  // The frame page_alloc takes: the lowest free one.
  function NextFrame(s: PageState): nat
    requires |s.bits| == BITMAP_WORDS && s.limit <= MAX_FRAMES
  {
    FirstClear(s.bits, 0, s.limit)
  }

  predicate OutOfFrames(s: PageState)
    requires |s.bits| == BITMAP_WORDS && s.limit <= MAX_FRAMES
  {
    NextFrame(s) == s.limit
  }

  function AfterAlloc(s: PageState): PageState
    requires |s.bits| == BITMAP_WORDS && s.limit <= MAX_FRAMES && !OutOfFrames(s)
  {
    s.(bits := WithSet(s.bits, NextFrame(s)))
  }

  // ----------------------------------------------------------------- mapping

  // Writes the table entry for va.
  function WithPte(ph: Phys, root: int, va: int, frame: int, rw: bool, user: bool): (r: Phys)
    requires IsPhys(ph) && 0 <= root < FRAMES && Address(va) && 0 <= frame < FRAMES
    ensures IsPhys(r)
  {
    var d, t := DirIndex(va), TableIndex(va);
    Write(ph, FrameOf(Pde(ph, root, d)), t, Entry(Pte(ph, root, d, t), frame, rw, user))
  }

  // The lowest free frame mapped at the placement heap and cleared.
  function AfterStructureAlloc(s: PageState, root: int): (r: PageState)
    requires WellFormed(s, root) && Address(s.placement) && !OutOfFrames(s)
    ensures IsPhys(r.ph)
  {
    var f := NextFrame(s);
    PageState(Zeroed(WithPte(s.ph, root, s.placement, f, true, false), f), WithSet(s.bits, f), s.limit,
              s.placement + PAGE_SIZE)
  }

  // Builds an empty table for directory slot d out of the lowest free frame, and maps
  // that frame at the placement heap.
  function WithTable(s: PageState, root: int, d: int): (r: PageState)
    requires WellFormed(s, root) && Address(s.placement) && 0 <= d < ENTRIES && !OutOfFrames(s)
    ensures IsPhys(r.ph)
  {
    var pde := Pde(s.ph, root, d);
    var half := s.(ph := Write(s.ph, root, d, WithFlags(pde, true, true)));
    var r := AfterStructureAlloc(half, root);
    r.(ph := Write(r.ph, root, d, Entry(pde, NextFrame(s), true, true)))
  }

  // The placement heap can take another page: its own table exists already.
  ghost predicate PlacementReady(s: PageState, root: int)
    requires WellFormed(s, root)
  {
    s.placement < TABLE_WINDOW && HasTable(s, root, s.placement)
  }

  /** When page_map succeeds. */
  predicate CanMap(s: PageState, root: int, pa: int, va: int)
    requires WellFormed(s, root) && Address(s.placement) && Address(pa) && Address(va)
  {
    && pa % PAGE_SIZE == 0 && va % PAGE_SIZE == 0 && Used(s, pa / PAGE_SIZE)
    && if HasTable(s, root, va) then !Present(Slot(s, root, va))
       else !OutOfFrames(s) && !Present(Slot(s, root, s.placement))
  }

  function AfterMap(s: PageState, root: int, pa: int, va: int, rw: bool, user: bool): PageState
    requires WellFormed(s, root) && Address(s.placement) && Address(pa) && Address(va)
    requires CanMap(s, root, pa, va)
  {
    var s1 := if HasTable(s, root, va) then s else WithTable(s, root, DirIndex(va));
    s1.(ph := WithPte(s1.ph, root, va, pa / PAGE_SIZE, rw, user))
  }

  function AfterUnmap(s: PageState, root: int, va: int): PageState
    requires WellFormed(s, root) && Address(va)
  {
    s.(ph := Write(s.ph, FrameOf(Pde(s.ph, root, DirIndex(va))), TableIndex(va), 0))
  }

  // ------------------------------------------------------------------ lemmas

  lemma NextFrameIsFree(s: PageState, root: int, hole: int)
    requires Sane(s, root, hole) && !OutOfFrames(s)
    ensures var f := NextFrame(s); 0 <= f < MAX_FRAMES && f < s.limit && !IsSet(s.bits, f)
    ensures forall d :: 0 <= d < ENTRIES && d != hole && Present(Pde(s.ph, root, d)) ==>
              FrameOf(Pde(s.ph, root, d)) != NextFrame(s)
    ensures NextFrame(s) != root
  {
  }

  // Taking a frame frees none.
  lemma AllocKeepsUsed(s: PageState, f: int)
    requires |s.bits| == BITMAP_WORDS && s.limit <= MAX_FRAMES && !OutOfFrames(s)
    ensures |AfterAlloc(s).bits| == BITMAP_WORDS
    ensures Used(AfterAlloc(s), f) <==> f == NextFrame(s) || Used(s, f)
  {
    if 0 <= f < MAX_FRAMES { SetChangesOne(s.bits, NextFrame(s), f); }
  }

  lemma IndicesOf(va: int)
    requires Address(va)
    ensures 0 <= DirIndex(va) < ENTRIES && 0 <= TableIndex(va) < ENTRIES
    ensures va < TABLE_WINDOW ==> DirIndex(va) < SELF
  {
  }

  // What a table entry write leaves of the directory.
  lemma PteKeepsDirectory(s: PageState, root: int, hole: int, va: int, frame: int, rw: bool, user: bool)
    requires Sane(s, root, hole) && Address(va) && va < TABLE_WINDOW && 0 <= frame < FRAMES
    requires HasTable(s, root, va) && DirIndex(va) != hole
    ensures var ph := WithPte(s.ph, root, va, frame, rw, user);
      && (forall d :: 0 <= d < ENTRIES ==> Pde(ph, root, d) == Pde(s.ph, root, d))
      && Sane(s.(ph := ph), root, hole)
  {
  }

  lemma SlotOfPte(s: PageState, root: int, hole: int, va: int, frame: int, rw: bool, user: bool)
    requires Sane(s, root, hole) && DirIndex(va) != hole
    requires Address(va) && va < TABLE_WINDOW && 0 <= frame < FRAMES && HasTable(s, root, va)
    ensures var s' := s.(ph := WithPte(s.ph, root, va, frame, rw, user));
      && Present(Slot(s', root, va)) && FrameOf(Slot(s', root, va)) == frame
      && (Writable(Slot(s', root, va)) <==> rw) && (ForUser(Slot(s', root, va)) <==> user)
  {
  }

  /** A table built for slot d: the directory is otherwise as it was, the new table is
      empty, and the only other entry written is the one for the placement heap. */
  lemma TableBuilt(s: PageState, root: int, d: int)
    requires Sane(s, root, NO_HOLE) && PlacementReady(s, root) && 0 <= d < SELF
    requires !Present(Pde(s.ph, root, d)) && !OutOfFrames(s)
    ensures var r := WithTable(s, root, d); var f := NextFrame(s);
      var g, t := FrameOf(Pde(s.ph, root, DirIndex(s.placement))), TableIndex(s.placement);
      && r.bits == AfterAlloc(s).bits && r.limit == s.limit && r.placement == s.placement + PAGE_SIZE
      && Present(Pde(r.ph, root, d)) && FrameOf(Pde(r.ph, root, d)) == f
      && Writable(Pde(r.ph, root, d)) && ForUser(Pde(r.ph, root, d))
      && (forall e :: 0 <= e < ENTRIES && e != d ==> Pde(r.ph, root, e) == Pde(s.ph, root, e))
      && (forall i :: 0 <= i < ENTRIES ==> Read(r.ph, f, i) == 0)
      && Present(Read(r.ph, g, t)) && FrameOf(Read(r.ph, g, t)) == f
      && Writable(Read(r.ph, g, t)) && !ForUser(Read(r.ph, g, t))
      && (forall h, i :: 0 <= h < FRAMES && 0 <= i < ENTRIES && h != f && h != root && (h, i) != (g, t) ==>
            Read(r.ph, h, i) == Read(s.ph, h, i))
  {
    IndicesOf(s.placement);
    NextFrameIsFree(s, root, NO_HOLE);
    assert TableOk(s, root, DirIndex(s.placement));
  }

  // A directory slot marked present before its address is set is the only thing out of order.
  lemma HalfBuilt(s: PageState, root: int, d: int)
    requires Sane(s, root, NO_HOLE) && 0 <= d < SELF && !Present(Pde(s.ph, root, d))
    ensures var half := s.(ph := Write(s.ph, root, d, WithFlags(Pde(s.ph, root, d), true, true)));
      && Sane(half, root, d) && NextFrame(half) == NextFrame(s) && OutOfFrames(half) == OutOfFrames(s)
      && (PlacementReady(s, root) ==>
            PlacementReady(half, root) && DirIndex(s.placement) != d &&
            Slot(half, root, s.placement) == Slot(s, root, s.placement))
  {
    var half := s.(ph := Write(s.ph, root, d, WithFlags(Pde(s.ph, root, d), true, true)));
    forall e | 0 <= e < ENTRIES && e != d && Present(Pde(half.ph, root, e)) ensures TableOk(half, root, e) {
      assert TableOk(s, root, e);
    }
    if PlacementReady(s, root) { assert TableOk(s, root, DirIndex(s.placement)); }
  }

  lemma PlacementMoves(s: PageState, r: PageState, root: int)
    requires WellFormed(s, root) && PlacementReady(s, root) && IsPhys(r.ph) && |r.bits| == BITMAP_WORDS
    requires r.limit == s.limit && r.placement == s.placement + PAGE_SIZE
    ensures WellFormed(r, root)
  {
    hide HasTable, IsPhys;
    assert r.placement % PAGE_SIZE == 0;
  }

  lemma BuildKeepsSane(s: PageState, root: int, d: int)
    requires Sane(s, root, NO_HOLE) && PlacementReady(s, root) && 0 <= d < SELF
    requires !Present(Pde(s.ph, root, d)) && !OutOfFrames(s)
    ensures Sane(WithTable(s, root, d), root, NO_HOLE)
  {
    hide WithTable, NextFrame, IsSet, AfterAlloc, OutOfFrames, Read, FrameOf, Present, DirIndex, TableIndex;
    TableBuilt(s, root, d);
    NextFrameIsFree(s, root, NO_HOLE);
    var r := WithTable(s, root, d);
    AllocKeepsUsed(s, 0);
    PlacementMoves(s, r, root);
    assert SelfMapped(r.ph, root);
    forall e | 0 <= e < ENTRIES && Present(Pde(r.ph, root, e)) ensures TableOk(r, root, e) {
      AllocKeepsUsed(s, FrameOf(Pde(r.ph, root, e)));
      assert Used(r, FrameOf(Pde(r.ph, root, e))) <==> Used(AfterAlloc(s), FrameOf(Pde(r.ph, root, e)));
      if e != d { assert TableOk(s, root, e); }
    }
  }

  lemma MapKeepsSane(s: PageState, root: int, pa: int, va: int, rw: bool, user: bool)
    requires Sane(s, root, NO_HOLE) && Address(pa) && Address(va) && va < TABLE_WINDOW && Address(s.placement)
    requires CanMap(s, root, pa, va) && (HasTable(s, root, va) || PlacementReady(s, root))
    ensures Sane(AfterMap(s, root, pa, va, rw, user), root, NO_HOLE)
  {
    hide WithTable, WithPte;
    IndicesOf(va);
    var d := DirIndex(va);
    if !HasTable(s, root, va) {
      TableBuilt(s, root, d);
      BuildKeepsSane(s, root, d);
    }
    var s1 := if HasTable(s, root, va) then s else WithTable(s, root, d);
    PteKeepsDirectory(s1, root, NO_HOLE, va, pa / PAGE_SIZE, rw, user);
  }

  // The frame taken for a table is neither the directory nor a table.
  lemma StructureFrame(s: PageState, root: int, hole: int)
    requires Sane(s, root, hole) && PlacementReady(s, root) && DirIndex(s.placement) != hole && !OutOfFrames(s)
    ensures var f := NextFrame(s); var a := AfterAlloc(s);
      && Sane(a, root, hole) && f != root && 0 <= f < MAX_FRAMES && Used(a, f)
      && FrameOf(Pde(s.ph, root, DirIndex(s.placement))) != f
      && (forall d :: 0 <= d < ENTRIES && d != hole && Present(Pde(s.ph, root, d)) ==>
            FrameOf(Pde(s.ph, root, d)) != f)
  {
  }

  // Clearing a frame that holds neither directory nor table disturbs neither.
  lemma ZeroKeepsSane(s: PageState, root: int, hole: int, f: int)
    requires Sane(s, root, hole) && 0 <= f < FRAMES && f != root
    ensures Sane(s.(ph := Zeroed(s.ph, f)), root, hole)
    ensures forall d :: 0 <= d < ENTRIES ==> Pde(Zeroed(s.ph, f), root, d) == Pde(s.ph, root, d)
  {
    var s' := s.(ph := Zeroed(s.ph, f));
    forall d | 0 <= d < ENTRIES && d != hole && Present(Pde(s'.ph, root, d)) ensures TableOk(s', root, d) {
      assert TableOk(s, root, d);
    }
  }

  lemma ReadyHasTable(s: PageState, root: int)
    requires WellFormed(s, root) && PlacementReady(s, root)
    ensures Address(s.placement) && s.placement < TABLE_WINDOW && s.placement % PAGE_SIZE == 0 && HasTable(s, root, s.placement)
  {
  }

  lemma SaneIsWellFormed(s: PageState, root: int, hole: int)
    requires Sane(s, root, hole)
    ensures WellFormed(s, root) && SelfMapped(s.ph, root)
  {
  }

  lemma TableLeavesRights(s: PageState, root: int, hole: int, va: int)
    requires Sane(s, root, hole) && Address(va) && HasTable(s, root, va) && DirIndex(va) != hole
    ensures Writable(Pde(s.ph, root, DirIndex(va))) && ForUser(Pde(s.ph, root, DirIndex(va)))
  {
    IndicesOf(va);
    assert TableOk(s, root, DirIndex(va));
  }

  /** The new table can be found at the placement heap. */
  lemma StructureMapped(s: PageState, root: int, hole: int)
    requires Sane(s, root, hole) && PlacementReady(s, root) && DirIndex(s.placement) != hole && !OutOfFrames(s)
    ensures var r := AfterStructureAlloc(s, root);
      && SelfMapped(r.ph, root)
      && (forall d :: 0 <= d < ENTRIES ==> Pde(r.ph, root, d) == Pde(s.ph, root, d))
      && Walk(r.ph, root, s.placement) == KernelPage(NextFrame(s) * PAGE_SIZE)
  {
    hide NextFrame, OutOfFrames, WithPte, Write, Zeroed, Sane, PlacementReady, IsSet, TableIndex, DirIndex;
    SaneIsWellFormed(s, root, hole);
    ReadyHasTable(s, root);
    TableLeavesRights(s, root, hole, s.placement);
    StructureFrame(s, root, hole);
    IndicesOf(s.placement);
    OffsetOf(s.placement, 0);
    PteKeepsDirectory(s, root, hole, s.placement, NextFrame(s), true, false);
    var m := WithPte(s.ph, root, s.placement, NextFrame(s), true, false);
    ZeroKeepsSane(s.(ph := m), root, hole, NextFrame(s));
    SlotOfPte(s, root, hole, s.placement, NextFrame(s), true, false);
  }

  /** page_map succeeds exactly for page addresses, a frame that has been taken and an address
      that leads nowhere, if there is a table for it or one can be made. */
  lemma CanMapIff(s: PageState, root: int, pa: int, va: int)
    requires Sane(s, root, NO_HOLE) && Address(pa) && Address(va) && va < TABLE_WINDOW
    requires HasTable(s, root, va) || PlacementReady(s, root)
    requires Address(s.placement)
    ensures CanMap(s, root, pa, va) <==>
      && pa % PAGE_SIZE == 0 && pa / PAGE_SIZE < MAX_FRAMES && IsSet(s.bits, pa / PAGE_SIZE)
      && va % PAGE_SIZE == 0 && Walk(s.ph, root, va) == None
      && (Present(Pde(s.ph, root, DirIndex(va))) ||
            (Walk(s.ph, root, s.placement) == None && exists f :: 0 <= f < s.limit && !IsSet(s.bits, f)))
  {
  }

  lemma MappedIff(s: PageState, root: int, va: int)
    requires WellFormed(s, root) && Address(va)
    ensures Walk(s.ph, root, va).Some? <==> HasTable(s, root, va) && Present(Slot(s, root, va))
  {
  }

  // ------------------------------------------------------------- translation

  // Address la is translated through the same word as va.
  ghost predicate SameEntry(ph: Phys, root: int, va: int, la: int)
    requires IsPhys(ph) && 0 <= root < FRAMES && Address(va) && Address(la)
  {
    && FrameOf(Pde(ph, root, DirIndex(la))) == FrameOf(Pde(ph, root, DirIndex(va)))
    && TableIndex(la) == TableIndex(va)
  }

  lemma OffsetOf(va: int, o: int)
    requires Address(va) && va % PAGE_SIZE == 0 && 0 <= o < PAGE_SIZE
    ensures Address(va + o) && Offset(va + o) == o
    ensures DirIndex(va + o) == DirIndex(va) && TableIndex(va + o) == TableIndex(va)
  {
    assert (va + o) / PAGE_SIZE == va / PAGE_SIZE;
    assert va / 0x40_0000 == va / PAGE_SIZE / ENTRIES;
    assert (va + o) / 0x40_0000 == (va + o) / PAGE_SIZE / ENTRIES;
  }

  /** After page_map(pa, va) every byte of the page at va is at the same place in the
      frame at pa. */
  lemma MapReaches(s: PageState, root: int, pa: int, va: int, rw: bool, user: bool, o: int)
    requires Sane(s, root, NO_HOLE) && Address(pa) && Address(va) && va < TABLE_WINDOW && Address(s.placement)
    requires CanMap(s, root, pa, va) && (HasTable(s, root, va) || PlacementReady(s, root))
    requires 0 <= o < PAGE_SIZE
    ensures Walk(AfterMap(s, root, pa, va, rw, user).ph, root, va + o) == Some(Reach(pa + o, rw, user))
  {
    hide WithTable;
    IndicesOf(va);
    OffsetOf(va, o);
    if HasTable(s, root, va) {
      PteKeepsDirectory(s, root, NO_HOLE, va, pa / PAGE_SIZE, rw, user);
    } else {
      TableBuilt(s, root, DirIndex(va));
      BuildKeepsSane(s, root, DirIndex(va));
      PteKeepsDirectory(WithTable(s, root, DirIndex(va)), root, NO_HOLE, va, pa / PAGE_SIZE, rw, user);
    }
  }

  // One table entry was written: what is not translated through it is translated as before.
  lemma PteKeepsOthers(s: PageState, root: int, va: int, frame: int, rw: bool, user: bool, la: int)
    requires Sane(s, root, NO_HOLE) && Address(va) && va < TABLE_WINDOW && 0 <= frame < FRAMES
    requires HasTable(s, root, va) && Address(la) && la < TABLE_WINDOW && !SameEntry(s.ph, root, va, la)
    ensures Walk(WithPte(s.ph, root, va, frame, rw, user), root, la) == Walk(s.ph, root, la)
  {
  }

  /** A new table changes nothing but the one page of the placement heap it is mapped
      at: no address loses or gains a translation or has it moved. */
  lemma BuildKeepsOthers(s: PageState, root: int, d: int, la: int)
    requires Sane(s, root, NO_HOLE) && PlacementReady(s, root) && 0 <= d < SELF
    requires !Present(Pde(s.ph, root, d)) && !OutOfFrames(s)
    requires Address(la) && la < TABLE_WINDOW && !SameEntry(s.ph, root, s.placement, la)
    ensures Walk(WithTable(s, root, d).ph, root, la) == Walk(s.ph, root, la)
  {
    hide WithTable, NextFrame, OutOfFrames;
    IndicesOf(la);
    IndicesOf(s.placement);
    TableBuilt(s, root, d);
    NextFrameIsFree(s, root, NO_HOLE);
    if HasTable(s, root, la) { assert TableOk(s, root, DirIndex(la)); }
  }

  /** page_map changes the translation of no address but those behind the entry it
      writes and, if it builds a table, behind the entry for the placement heap. */
  lemma MapKeepsOthers(s: PageState, root: int, pa: int, va: int, rw: bool, user: bool, la: int)
    requires Sane(s, root, NO_HOLE) && Address(pa) && Address(va) && va < TABLE_WINDOW && Address(s.placement)
    requires CanMap(s, root, pa, va) && (HasTable(s, root, va) || PlacementReady(s, root))
    requires Address(la) && la < TABLE_WINDOW
    requires if HasTable(s, root, va) then !SameEntry(s.ph, root, va, la)
             else !SameEntry(s.ph, root, s.placement, la) &&
                  !(DirIndex(la) == DirIndex(va) && TableIndex(la) == TableIndex(va))
    ensures Walk(AfterMap(s, root, pa, va, rw, user).ph, root, la) == Walk(s.ph, root, la)
  {
    hide WithTable, WithPte, Walk;
    IndicesOf(va);
    IndicesOf(la);
    var d := DirIndex(va);
    if HasTable(s, root, va) {
      PteKeepsOthers(s, root, va, pa / PAGE_SIZE, rw, user, la);
    } else {
      var s1 := WithTable(s, root, d);
      TableBuilt(s, root, d);
      BuildKeepsSane(s, root, d);
      BuildKeepsOthers(s, root, d, la);
      NextFrameIsFree(s, root, NO_HOLE);
      if SameEntry(s1.ph, root, va, la) {
        NotBehindNewTable(s, root, va, pa / PAGE_SIZE, rw, user, la);
      } else {
        PteKeepsOthers(s1, root, va, pa / PAGE_SIZE, rw, user, la);
      }
    }
  }

  // An address whose stale, absent directory entry happens to name the new table has
  // no translation before or after.
  lemma NotBehindNewTable(s: PageState, root: int, va: int, frame: int, rw: bool, user: bool, la: int)
    requires Sane(s, root, NO_HOLE) && PlacementReady(s, root) && !OutOfFrames(s)
    requires Address(va) && va < TABLE_WINDOW && 0 <= frame < FRAMES && !HasTable(s, root, va)
    requires Address(la) && la < TABLE_WINDOW && DirIndex(la) != DirIndex(va)
    requires SameEntry(WithTable(s, root, DirIndex(va)).ph, root, va, la)
    ensures var s1 := WithTable(s, root, DirIndex(va));
      Walk(WithPte(s1.ph, root, va, frame, rw, user), root, la) == None == Walk(s.ph, root, la)
  {
    hide WithTable;
    IndicesOf(va);
    IndicesOf(la);
    TableBuilt(s, root, DirIndex(va));
    BuildKeepsSane(s, root, DirIndex(va));
    NextFrameIsFree(s, root, NO_HOLE);
    PteKeepsDirectory(WithTable(s, root, DirIndex(va)), root, NO_HOLE, va, frame, rw, user);
  }

  lemma UnmapKeepsSane(s: PageState, root: int, va: int)
    requires Sane(s, root, NO_HOLE) && Address(va) && va < TABLE_WINDOW && HasTable(s, root, va)
    ensures Sane(AfterUnmap(s, root, va), root, NO_HOLE)
    ensures forall d :: 0 <= d < ENTRIES ==> Pde(AfterUnmap(s, root, va).ph, root, d) == Pde(s.ph, root, d)
  {
    IndicesOf(va);
    var s' := AfterUnmap(s, root, va);
    assert TableOk(s, root, DirIndex(va));
    forall e | 0 <= e < ENTRIES && Present(Pde(s'.ph, root, e)) ensures TableOk(s', root, e) {
      assert TableOk(s, root, e);
    }
  }

  /** page_unmap takes away exactly the translations through the entry of va. */
  lemma UnmapRemoves(s: PageState, root: int, va: int, la: int)
    requires Sane(s, root, NO_HOLE) && Address(va) && va < TABLE_WINDOW && HasTable(s, root, va)
    requires Address(la) && la < TABLE_WINDOW
    ensures Walk(AfterUnmap(s, root, va).ph, root, la) ==
              if SameEntry(s.ph, root, va, la) then None else Walk(s.ph, root, la)
  {
  }

  /** Unmapping a page just mapped leaves every translation below the windows as it was
      before; only a table built for it stays, and its page of the placement heap. */
  lemma UnmapUndoesMap(s: PageState, root: int, pa: int, va: int, rw: bool, user: bool, la: int)
    requires Sane(s, root, NO_HOLE) && Address(pa) && Address(va) && va < TABLE_WINDOW && Address(s.placement)
    requires CanMap(s, root, pa, va) && (HasTable(s, root, va) || PlacementReady(s, root))
    requires Address(la) && la < TABLE_WINDOW
    requires !HasTable(s, root, va) ==> !SameEntry(s.ph, root, s.placement, la)
    ensures Sane(AfterMap(s, root, pa, va, rw, user), root, NO_HOLE)
    ensures Walk(AfterUnmap(AfterMap(s, root, pa, va, rw, user), root, va).ph, root, la) == Walk(s.ph, root, la)
  {
    hide WithTable, AfterMap, AfterUnmap, WithPte, NextFrame, OutOfFrames, IsSet;
    var s1 := AfterMap(s, root, pa, va, rw, user);
    MapKeepsSane(s, root, pa, va, rw, user);
    AfterMapTables(s, root, pa, va, rw, user, la);
    UnmapRemoves(s1, root, va, la);
    if !SameEntry(s1.ph, root, va, la) { MapKeepsOthers(s, root, pa, va, rw, user, la); }
  }

  // After a mapping va has a table, and what is translated through the entry of va had
  // no translation before.
  lemma AfterMapTables(s: PageState, root: int, pa: int, va: int, rw: bool, user: bool, la: int)
    requires Sane(s, root, NO_HOLE) && Address(pa) && Address(va) && va < TABLE_WINDOW && Address(s.placement)
    requires CanMap(s, root, pa, va) && (HasTable(s, root, va) || PlacementReady(s, root))
    requires Address(la) && la < TABLE_WINDOW
    requires !HasTable(s, root, va) ==> !SameEntry(s.ph, root, s.placement, la)
    requires Sane(AfterMap(s, root, pa, va, rw, user), root, NO_HOLE)
    ensures var s1 := AfterMap(s, root, pa, va, rw, user);
      && HasTable(s1, root, va)
      && (SameEntry(s1.ph, root, va, la) ==> Walk(s.ph, root, la) == None)
      && (!SameEntry(s1.ph, root, va, la) ==>
            !(DirIndex(la) == DirIndex(va) && TableIndex(la) == TableIndex(va)) &&
            (HasTable(s, root, va) ==> !SameEntry(s.ph, root, va, la)))
  {
    hide WithTable, WithPte, NextFrame, OutOfFrames, IsSet, Walk;
    IndicesOf(va);
    IndicesOf(la);
    var d := DirIndex(va);
    if HasTable(s, root, va) {
      PteKeepsDirectory(s, root, NO_HOLE, va, pa / PAGE_SIZE, rw, user);
      if SameEntry(s.ph, root, va, la) { SameEntrySameWalk(s, root, va, la); }
    } else {
      TableBuilt(s, root, d);
      BuildKeepsSane(s, root, d);
      PteKeepsDirectory(WithTable(s, root, d), root, NO_HOLE, va, pa / PAGE_SIZE, rw, user);
      if DirIndex(la) == d {
        NoTableNoWalk(s, root, la);
      } else if SameEntry(WithTable(s, root, d).ph, root, va, la) {
        NotBehindNewTable(s, root, va, pa / PAGE_SIZE, rw, user, la);
      }
    }
  }

  lemma SameEntrySameWalk(s: PageState, root: int, va: int, la: int)
    requires Sane(s, root, NO_HOLE) && Address(va) && Address(la)
    requires SameEntry(s.ph, root, va, la) && !Present(Slot(s, root, va))
    ensures Walk(s.ph, root, la) == None
  {
  }

  lemma NoTableNoWalk(s: PageState, root: int, la: int)
    requires WellFormed(s, root) && Address(la) && !HasTable(s, root, la)
    ensures Walk(s.ph, root, la) == None
  {
  }
}
