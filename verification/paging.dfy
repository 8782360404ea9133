/** page_alloc, page_free, page_map, page_unmap and paging_structure_alloc, which reach
    the directory and the tables only through their virtual addresses. */
module Paging {
  import opened Machine
  import opened Bitmaps
  import opened Mmu
  import opened Pages

  class Pager {
    var phys: Phys
    const root: int            // the frame the processor takes the directory from
    const bitmap: Bitmap
    var placement: int         // placement_heap

    // The processor as boot.S leaves it: root is in CR3, and no frame is accounted for.
    constructor (phys: Phys, root: int)
      ensures this.phys == phys && this.root == root && placement == 0
      ensures fresh(bitmap) && fresh(bitmap.bits) && bitmap.wordCount == 0
      ensures bitmap.bits.Length == BITMAP_WORDS
      ensures forall i :: 0 <= i < BITMAP_WORDS ==> bitmap.bits[i] == 0
    {
      this.phys, this.root, placement := phys, root, 0;
      bitmap := new Bitmap(BITMAP_WORDS);
    }

    ghost function State(): PageState
      reads this, bitmap, bitmap.bits
    {
      PageState(phys, bitmap.bits[..], BITS_PER_WORD * bitmap.wordCount, placement)
    }

    ghost predicate Valid(hole: int)
      reads this, bitmap, bitmap.bits
    {
      Sane(State(), root, hole)
    }

    // A word read at a virtual address.
    function Load(va: int): Word32
      requires IsPhys(phys) && 0 <= root < FRAMES && Address(va) && Walk(phys, root, va).Some?
      reads this
    {
      phys[Walk(phys, root, va).value.pa / 4]
    }

    // A word written at a virtual address.
    method Store(va: int, w: Word32)
      requires IsPhys(phys) && 0 <= root < FRAMES && Address(va) && Walk(phys, root, va).Some?
      modifies `phys
      ensures phys == old(phys)[Walk(old(phys), root, va).value.pa / 4 := w]
    {
      var pa := Walk(phys, root, va).value.pa;
      phys := phys[pa / 4 := w];
    }

    /** The directory entry d, read and written at 0xFFFFF000 + 4 * d. */
    method LoadPde(d: int) returns (w: Word32)
      requires IsPhys(phys) && 0 <= root < FRAMES && SelfMapped(phys, root) && 0 <= d < ENTRIES
      ensures w == Pde(phys, root, d)
    {
      DirectoryWindow(phys, root, d);
      WordOfAddress(root, d);
      w := Load(DIR_WINDOW + 4 * d);
    }

    method StorePde(d: int, w: Word32)
      requires IsPhys(phys) && 0 <= root < FRAMES && SelfMapped(phys, root) && 0 <= d < ENTRIES
      modifies `phys
      ensures phys == Write(old(phys), root, d, w)
    {
      DirectoryWindow(phys, root, d);
      WordOfAddress(root, d);
      Store(DIR_WINDOW + 4 * d, w);
    }

    /** The table entry (d, t), read and written at 0xFFC00000 + 0x1000 * d + 4 * t. */
    method LoadPte(d: int, t: int) returns (w: Word32)
      requires IsPhys(phys) && 0 <= root < FRAMES && SelfMapped(phys, root)
      requires 0 <= d < ENTRIES && 0 <= t < ENTRIES && Present(Pde(phys, root, d))
      ensures w == Pte(phys, root, d, t)
    {
      TableWindow(phys, root, d, t);
      WordOfAddress(FrameOf(Pde(phys, root, d)), t);
      w := Load(TABLE_WINDOW + PAGE_SIZE * d + 4 * t);
    }

    method StorePte(d: int, t: int, w: Word32)
      requires IsPhys(phys) && 0 <= root < FRAMES && SelfMapped(phys, root)
      requires 0 <= d < ENTRIES && 0 <= t < ENTRIES && Present(Pde(phys, root, d))
      modifies `phys
      ensures phys == Write(old(phys), FrameOf(Pde(old(phys), root, d)), t, w)
    {
      TableWindow(phys, root, d, t);
      WordOfAddress(FrameOf(Pde(phys, root, d)), t);
      Store(TABLE_WINDOW + PAGE_SIZE * d + 4 * t, w);
    }

    // page_alloc: the number of the frame taken, or none.
    method PageAlloc(ghost hole: int) returns (ok: bool, frame: int)
      requires Valid(hole)
      modifies bitmap.bits
      ensures ok <==> !OutOfFrames(old(State()))
      ensures ok ==> State() == AfterAlloc(old(State())) && frame == NextFrame(old(State()))
      ensures !ok ==> State() == old(State())
    {
      var bit := bitmap.FirstFree();
      if bit == NONE { return false, 0; }
      bitmap.Set(bit);
      return true, bit;
    }

    // page_free
    method PageFree(frame: int)
      requires |bitmap.bits[..]| == BITMAP_WORDS && 0 <= frame < MAX_FRAMES
      modifies bitmap.bits
      ensures State() == old(State()).(bits := WithClear(old(State()).bits, frame))
    {
      bitmap.Clear(frame);
    }

    /** page_map.  ok is false where the source panics.  The slot being filled in by an
        outer call, if any, is hole; the recursion is at most one level deep. */
    method PageMap(pa: int, va: int, rw: bool, user: bool, ghost hole: int) returns (ok: bool)
      requires Valid(hole) && Address(placement)
      requires Address(pa) && pa / PAGE_SIZE < MAX_FRAMES && Address(va) && va < TABLE_WINDOW
      requires DirIndex(va) != hole
      requires !HasTable(State(), root, va) ==> hole == NO_HOLE && PlacementReady(State(), root)
      modifies `phys, `placement, bitmap.bits
      ensures ok <==> CanMap(old(State()), root, pa, va)
      ensures ok ==> Valid(hole) && State() == AfterMap(old(State()), root, pa, va, rw, user)
      ensures ok && hole == NO_HOLE ==> Walk(phys, root, va) == Some(Reach(pa, rw, user))
      decreases if HasTable(State(), root, va) then 0 else 2
    {
      hide NextFrame, OutOfFrames, Zeroed, Write, Read, IsSet, AfterStructureAlloc, Walk, VirtToPhys, WithFlags,
           TableIndex, DirIndex;
      ghost var s := State();
      IndicesOf(va);
      var used := bitmap.Test(pa / PAGE_SIZE);
      if pa % PAGE_SIZE != 0 || va % PAGE_SIZE != 0 || !used { return false; }
      var d, t := DirIndex(va), TableIndex(va);
      var pde := LoadPde(d);
      if !Present(pde) {
        HalfBuilt(s, root, d);
        StorePde(d, WithFlags(pde, true, true));
        ghost var half := State();
        var table;
        ok, table := StructureAlloc(d);
        if !ok { return; }
        StructureMapped(half, root, d);
        VirtToPhysIsWalk(phys, root, table);
        var frame := VirtToPhys(phys, root, table).value / PAGE_SIZE;
        pde := LoadPde(d);
        StorePde(d, WithAddress(pde, frame));
        assert State() == WithTable(s, root, d);
        BuildKeepsSane(s, root, d);
        TableBuilt(s, root, d);
      }
      var pte := LoadPte(d, t);
      if Present(pte) { return false; }
      PteKeepsDirectory(State(), root, hole, va, pa / PAGE_SIZE, rw, user);
      StorePte(d, t, Entry(pte, pa / PAGE_SIZE, rw, user));
      if hole == NO_HOLE {
        OffsetOf(va, 0);
        MapReaches(s, root, pa, va, rw, user, 0);
      }
      return true;
    }

    /** page_unmap.  ok is false where the source panics. */
    method PageUnmap(va: int) returns (ok: bool)
      requires Valid(NO_HOLE) && Address(va) && va < TABLE_WINDOW
      modifies `phys
      ensures ok <==> va % PAGE_SIZE == 0 && HasTable(old(State()), root, va) && Present(Slot(old(State()), root, va))
      ensures ok <==> va % PAGE_SIZE == 0 && Walk(old(phys), root, va) != None
      ensures ok ==> Valid(NO_HOLE) && State() == AfterUnmap(old(State()), root, va)
      ensures ok ==> Walk(phys, root, va) == None
      ensures !ok ==> State() == old(State())
    {
      hide Write, IsSet;
      IndicesOf(va);
      var d, t := DirIndex(va), TableIndex(va);
      MappedIff(State(), root, va);
      if va % PAGE_SIZE != 0 { return false; }
      var pde := LoadPde(d);
      if !Present(pde) { return false; }
      var pte := LoadPte(d, t);
      if !Present(pte) { return false; }
      UnmapKeepsSane(State(), root, va);
      UnmapRemoves(State(), root, va, va);
      StorePte(d, t, 0);
      return true;
    }

    // memset of the page at va, which is mapped to frame f, to zero.
    method ClearPage(va: int, f: int, ghost hole: int)
      requires Valid(hole) && Address(va) && va < TABLE_WINDOW && va % PAGE_SIZE == 0 && DirIndex(va) != hole
      requires HasTable(State(), root, va) && Present(Slot(State(), root, va))
      requires f == FrameOf(Slot(State(), root, va)) && f != root
      requires FrameOf(Pde(phys, root, DirIndex(va))) != f
      modifies `phys
      ensures phys == Zeroed(old(phys), f)
    {
      hide Write, Zeroed, WithTable;
      ghost var m := phys;
      var i := 0;
      while i < ENTRIES
        invariant 0 <= i <= ENTRIES && IsPhys(phys)
        invariant forall g, j :: 0 <= g < FRAMES && 0 <= j < ENTRIES ==>
          Read(phys, g, j) == if g == f && j < i then 0 else Read(m, g, j)
      {
        OffsetOf(va, 4 * i);
        IndicesOf(va);
        WordOfAddress(f, i);
        assert PhysicalOf(Walk(phys, root, va + 4 * i)) == Some(WordAddress(f, i));
        ghost var before := phys;
        Store(va + 4 * i, 0);
        assert phys == Write(before, f, i, 0) by { WriteIs(before, f, i, 0); }
        i := i + 1;
      }
      SameWords(phys, Zeroed(m, f));
    }

    /** paging_structure_alloc, called while directory slot hole is being filled in: the
        lowest free frame, mapped at the placement heap and all zero. */
    method StructureAlloc(ghost hole: int) returns (ok: bool, table: int)
      requires Valid(hole) && PlacementReady(State(), root) && DirIndex(placement) != hole
      modifies `phys, `placement, bitmap.bits
      ensures ok <==> !OutOfFrames(old(State())) && !Present(Slot(old(State()), root, old(placement)))
      ensures ok ==> Valid(hole) && table == old(placement) && State() == AfterStructureAlloc(old(State()), root)
      decreases 1
    {
      hide NextFrame, OutOfFrames, Zeroed, Write, Read, IsSet, Walk, VirtToPhys, WithFlags, TableIndex, DirIndex, Writable,
           ForUser;
      ghost var s := State();
      var frame;
      IndicesOf(placement);
      table := placement;
      ok, frame := PageAlloc(hole);
      if !ok { return; }
      StructureFrame(s, root, hole);
      ok := PageMap(frame * PAGE_SIZE, placement, true, false, hole);
      if !ok { return; }
      ghost var mapped := State();
      PteKeepsDirectory(AfterAlloc(s), root, hole, placement, frame, true, false);
      SlotOfPte(AfterAlloc(s), root, hole, placement, frame, true, false);
      ClearPage(placement, frame, hole);
      ZeroKeepsSane(mapped, root, hole, frame);
      placement := placement + PAGE_SIZE;
    }
  }
}
