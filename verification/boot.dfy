/** Setting up the frame bitmap at boot, so that no frame of the kernel or of a module
    is ever handed out. */
module Boot {
  import opened Machine
  import opened Bitmaps
  import opened Mmu
  import opened Pages
  import opened Paging
  import opened Frames
  import opened KernelHeap

  const FILLED_WORDS := 256            // memset is given a count of words where it takes bytes
  const HIGH_OFFSET := 0xC000_0000     // g_kernel_high_offset

  // An entry of the memory map, and a module, as GRUB passes them.
  datatype Region = Region(addr: int, len: int, available: bool)
  datatype Module = Module(start: int, end: int)

  // The frames from that of base to so many frames further, both included.
  function FirstFrame(base: int): int { base / PAGE_SIZE }

  function FrameSpan(size: int): int {
    if size % PAGE_SIZE != 0 then size / PAGE_SIZE + 1 else size / PAGE_SIZE
  }

  predicate InSpan(base: int, size: int, f: int) {
    FirstFrame(base) <= f <= FirstFrame(base) + FrameSpan(size)
  }

  // The whole span lies in the bitmap.
  predicate SpanFits(base: int, size: int) {
    0 <= base && 0 <= size && FirstFrame(base) + FrameSpan(size) < MAX_FRAMES
  }

  /** The span covers every frame that overlaps [base, base + size), even if base is not
      aligned, and at most one frame beyond. */
  lemma SpanCovers(base: int, size: int, x: int)
    requires 0 <= base && 0 < size && base <= x < base + size
    ensures InSpan(base, size, x / PAGE_SIZE)
    ensures FirstFrame(base) + FrameSpan(size) <= (base + size - 1) / PAGE_SIZE + 1
  {
  }

  // Frames of memSize bytes of memory, and the words of the bitmap they take.
  function FrameCount(memSize: int): int { FrameSpan(memSize) }

  function WordCount(memSize: int): int {
    var n := FrameCount(memSize);
    if n % BITS_PER_WORD != 0 then n / BITS_PER_WORD + 1 else n / BITS_PER_WORD
  }

  // Frame f holds a byte of a memory of memSize bytes.
  predicate InMemory(memSize: int, f: int) { 0 <= f && f * PAGE_SIZE < memSize }

  /** The words in use have a bit for every frame of memory, and fewer than 32 for no frame. */
  lemma WordsCoverMemory(memSize: int)
    requires 0 <= memSize
    ensures forall f :: InMemory(memSize, f) ==> f < BITS_PER_WORD * WordCount(memSize)
    ensures WordCount(memSize) == 0 || InMemory(memSize, BITS_PER_WORD * (WordCount(memSize) - 1))
  {
    var n := FrameCount(memSize);
    assert BITS_PER_WORD * WordCount(memSize) >= n;
    assert (n - 1) * PAGE_SIZE < memSize <= n * PAGE_SIZE;
    assert WordCount(memSize) > 0 ==> BITS_PER_WORD * (WordCount(memSize) - 1) <= n - 1;
  }

  function InitialBits(): seq<bv32> {
    seq(FILLED_WORDS, _ => FULL) + seq(BITMAP_WORDS - FILLED_WORDS, _ => 0)
  }

  lemma InitiallySet(f: nat)
    requires f < MAX_FRAMES
    ensures IsSet(InitialBits(), f) <==> f < BITS_PER_WORD * FILLED_WORDS
  {
  }

  /** All of memory is in use by default exactly if there are no more than 32 MiB of it. */
  lemma AllInUseIff(memSize: int)
    requires 0 <= memSize && WordCount(memSize) < BITMAP_WORDS
    ensures (forall f :: 0 <= f < FrameCount(memSize) ==> Used0(f)) <==> memSize <= 0x200_0000
  {
    forall f | 0 <= f < FrameCount(memSize) ensures Used0(f) <==> f < BITS_PER_WORD * FILLED_WORDS {
      InitiallySet(f);
    }
    if memSize > 0x200_0000 { assert !Used0(BITS_PER_WORD * FILLED_WORDS) by { InitiallySet(BITS_PER_WORD * FILLED_WORDS); } }
  }

  // Frame f is in use once the bitmap has been filled.
  predicate Used0(f: int) { 0 <= f < MAX_FRAMES && |InitialBits()| == BITMAP_WORDS && IsSet(InitialBits(), f) }

  // paging_init_bitmap; ok is false where the source panics.
  method InitBitmap(p: Pager, memSize: int) returns (ok: bool)
    requires 0 <= memSize < WORD_RANGE && p.bitmap.bits.Length == BITMAP_WORDS
    requires forall i :: 0 <= i < BITMAP_WORDS ==> p.bitmap.bits[i] == 0
    modifies p.bitmap, p.bitmap.bits
    ensures ok <==> WordCount(memSize) < BITMAP_WORDS
    ensures ok ==> p.bitmap.wordCount == WordCount(memSize) && p.bitmap.bits[..] == InitialBits()
  {
    var pages := memSize / PAGE_SIZE;
    if memSize % PAGE_SIZE != 0 { pages := pages + 1; }
    var words := pages / BITS_PER_WORD;
    if pages % BITS_PER_WORD != 0 { words := words + 1; }
    p.bitmap.wordCount := words;
    if words >= BITMAP_WORDS { return false; }
    var i := 0;
    while i < FILLED_WORDS
      invariant 0 <= i <= FILLED_WORDS && p.bitmap.wordCount == words
      invariant forall j :: 0 <= j < BITMAP_WORDS ==> p.bitmap.bits[j] == if j < i then FULL else 0
    {
      p.bitmap.bits[i] := FULL;
      i := i + 1;
    }
    ok := true;
    assert p.bitmap.bits[..] == InitialBits();
  }

  // paging_init_region
  method InitRegion(b: Bitmap, base: int, size: int)
    requires b.bits.Length == BITMAP_WORDS && SpanFits(base, size)
    modifies b.bits
    ensures forall f :: 0 <= f < MAX_FRAMES ==>
      (IsSet(b.bits[..], f) <==> f == 0 || (IsSet(old(b.bits[..]), f) && !InSpan(base, size, f)))
  {
    hide IsSet, WithSet, WithClear;
    var frame, left := base / PAGE_SIZE, size / PAGE_SIZE;
    if size % PAGE_SIZE != 0 { left := left + 1; }
    while left >= 0
      invariant -1 <= left <= FrameSpan(size) && frame + left == FirstFrame(base) + FrameSpan(size)
      invariant forall f :: 0 <= f < MAX_FRAMES ==>
        (IsSet(b.bits[..], f) <==> IsSet(old(b.bits[..]), f) && !(FirstFrame(base) <= f < frame))
    {
      ghost var ws := b.bits[..];
      b.Clear(frame);
      forall f | 0 <= f < MAX_FRAMES ensures IsSet(b.bits[..], f) <==> f != frame && IsSet(ws, f) {
        ClearChangesOne(ws, frame, f);
      }
      frame, left := frame + 1, left - 1;
    }
    ghost var ws := b.bits[..];
    b.Set(0);
    forall f | 0 <= f < MAX_FRAMES ensures IsSet(b.bits[..], f) <==> f == 0 || IsSet(ws, f) {
      SetChangesOne(ws, 0, f);
    }
  }

  // paging_deinit_region
  method DeinitRegion(b: Bitmap, base: int, size: int)
    requires b.bits.Length == BITMAP_WORDS && SpanFits(base, size)
    modifies b.bits
    ensures forall f :: 0 <= f < MAX_FRAMES ==>
      (IsSet(b.bits[..], f) <==> IsSet(old(b.bits[..]), f) || InSpan(base, size, f))
  {
    hide IsSet, WithSet;
    var frame, left := base / PAGE_SIZE, size / PAGE_SIZE;
    if size % PAGE_SIZE != 0 { left := left + 1; }
    while left >= 0
      invariant -1 <= left <= FrameSpan(size) && frame + left == FirstFrame(base) + FrameSpan(size)
      invariant forall f :: 0 <= f < MAX_FRAMES ==>
        (IsSet(b.bits[..], f) <==> IsSet(old(b.bits[..]), f) || FirstFrame(base) <= f < frame)
    {
      ghost var ws := b.bits[..];
      b.Set(frame);
      forall f | 0 <= f < MAX_FRAMES ensures IsSet(b.bits[..], f) <==> f == frame || IsSet(ws, f) {
        SetChangesOne(ws, frame, f);
      }
      frame, left := frame + 1, left - 1;
    }
  }

  // Frame f is freed because of one of the first n entries of the memory map.
  ghost predicate Freed(map_: seq<Region>, n: int, f: int)
    requires 0 <= n <= |map_|
  {
    exists i :: 0 <= i < n && FreedBy(map_[i], f)
  }

  predicate FreedBy(r: Region, f: int) { r.available && InSpan(Low32(r.addr), Low32(r.addr), f) }

  // parse_memory_map.  The length it takes is the address once more.
  method ParseMemoryMap(b: Bitmap, map_: seq<Region>)
    requires b.bits.Length == BITMAP_WORDS && IsSet(b.bits[..], 0)
    requires forall i :: 0 <= i < |map_| && map_[i].available ==> SpanFits(Low32(map_[i].addr), Low32(map_[i].addr))
    modifies b.bits
    ensures forall f :: 0 <= f < MAX_FRAMES ==>
      (IsSet(b.bits[..], f) <==> f == 0 || (IsSet(old(b.bits[..]), f) && !Freed(map_, |map_|, f)))
  {
    hide IsSet, InSpan;
    var i := 0;
    while i < |map_|
      invariant 0 <= i <= |map_|
      invariant forall f :: 0 <= f < MAX_FRAMES ==>
        (IsSet(b.bits[..], f) <==> f == 0 || (IsSet(old(b.bits[..]), f) && !Freed(map_, i, f)))
    {
      var addr := Low32(map_[i].addr);
      var len := Low32(map_[i].addr);
      if map_[i].available { InitRegion(b, addr, len); }
      forall f: int ensures Freed(map_, i + 1, f) <==> Freed(map_, i, f) || FreedBy(map_[i], f) {
        FreedStep(map_, i, f);
      }
      i := i + 1;
    }
  }

  lemma FreedStep(map_: seq<Region>, n: int, f: int)
    requires 0 <= n < |map_|
    ensures Freed(map_, n + 1, f) <==> Freed(map_, n, f) || FreedBy(map_[n], f)
  {
    if Freed(map_, n, f) {
      var i :| 0 <= i < n && FreedBy(map_[i], f);
      assert FreedBy(map_[i], f);
    }
  }

  // Frame f holds a byte of region r.
  predicate Own(r: Region, f: int) {
    0 < Low32(r.len) && FirstFrame(Low32(r.addr)) <= f <= (Low32(r.addr) + Low32(r.len) - 1) / PAGE_SIZE
  }

  /** The frames freed for a region, of which frame 0 is never one, are exactly its own if
      and only if it has a byte, and its last one is in the last frame of a span as long as
      its address; or it is the empty one at 0. */
  lemma FreesOwnIff(r: Region)
    requires r.available
    ensures var a, n := Low32(r.addr), Low32(r.len);
      (forall f :: f != 0 ==> (FreedBy(r, f) <==> Own(r, f))) <==>
        (0 < n && (a + n - 1) / PAGE_SIZE == FirstFrame(a) + FrameSpan(a)) || a == n == 0
  {
    var a, n := Low32(r.addr), Low32(r.len);
    var freed, own := FirstFrame(a) + FrameSpan(a), (a + n - 1) / PAGE_SIZE;
    assert FreedBy(r, freed) && (Own(r, freed) <==> 0 < n && freed <= own);
    if 0 < n { assert Own(r, own) && (FreedBy(r, own) <==> own <= freed); }
  }

  /** Reading the length from the address makes no difference if and only if the length
      takes as many frames as the address. */
  lemma FreesRegionIff(r: Region)
    requires r.available && 0 <= Low32(r.addr) && 0 <= Low32(r.len)
    ensures (forall f :: FreedBy(r, f) <==> InSpan(Low32(r.addr), Low32(r.len), f)) <==>
      FrameSpan(Low32(r.addr)) == FrameSpan(Low32(r.len))
  {
    var a, n := Low32(r.addr), Low32(r.len);
    if FrameSpan(a) != FrameSpan(n) {
      var more := if FrameSpan(a) < FrameSpan(n) then FrameSpan(n) else FrameSpan(a);
      assert FreedBy(r, FirstFrame(a) + more) != InSpan(a, n, FirstFrame(a) + more);
    }
  }

  // Not even then are the frames the region's own: of the megabyte that follows the first
  // one 257 frames are freed, and it has 256.
  lemma OneFrameTooMany()
    ensures var r := Region(0x10_0000, 0x10_0000, true);
      FrameSpan(Low32(r.addr)) == FrameSpan(Low32(r.len)) && FreedBy(r, 0x200) && !Own(r, 0x200)
  {
  }

  // The 31 MiB that follow the first one: of 7937 frames the first 257 are freed.
  lemma RegionMostlyKept()
    ensures var r := Region(0x10_0000, 0x1F0_0000, true);
      forall f :: InSpan(0x10_0000, 0x1F0_0000, f) ==> (FreedBy(r, f) <==> f <= 0x200)
  {
  }

  function Low32(x: int): int { x % WORD_RANGE }

  // What preserve_modules passes on, for a module of at least one byte.
  predicate ModuleFits(m: Module) { 0 <= m.start < m.end && SpanFits(m.start, m.end - m.start - 1) }

  // Every frame that holds a byte of [start, end) is in use.
  ghost predicate Held(ws: seq<bv32>, start: int, end: int)
    requires |ws| == BITMAP_WORDS
  {
    forall f :: 0 <= f < MAX_FRAMES && start / PAGE_SIZE <= f && f * PAGE_SIZE < end ==> IsSet(ws, f)
  }

  // Frame f is reserved because of one of the first n modules.
  ghost predicate Reserved(mods: seq<Module>, n: int, f: int)
    requires 0 <= n <= |mods|
  {
    exists i :: 0 <= i < n && InModule(mods[i], f)
  }

  predicate InModule(m: Module, f: int) { InSpan(m.start, m.end - m.start - 1, f) }

  lemma ReservedStep(mods: seq<Module>, n: int, f: int)
    requires 0 <= n < |mods|
    ensures Reserved(mods, n + 1, f) <==> Reserved(mods, n, f) || InModule(mods[n], f)
  {
    if Reserved(mods, n, f) {
      var i :| 0 <= i < n && InModule(mods[i], f);
      assert InModule(mods[i], f);
    }
  }

  // preserve_modules
  method PreserveModules(b: Bitmap, mods: seq<Module>)
    requires b.bits.Length == BITMAP_WORDS && forall i :: 0 <= i < |mods| ==> ModuleFits(mods[i])
    modifies b.bits
    ensures forall f :: 0 <= f < MAX_FRAMES ==>
      (IsSet(b.bits[..], f) <==> IsSet(old(b.bits[..]), f) || Reserved(mods, |mods|, f))
    ensures forall i :: 0 <= i < |mods| ==> Held(b.bits[..], mods[i].start, mods[i].end)
  {
    hide IsSet, InSpan;
    var i := 0;
    while i < |mods|
      invariant 0 <= i <= |mods|
      invariant forall f :: 0 <= f < MAX_FRAMES ==>
        (IsSet(b.bits[..], f) <==> IsSet(old(b.bits[..]), f) || Reserved(mods, i, f))
    {
      DeinitRegion(b, mods[i].start, mods[i].end - mods[i].start - 1);
      forall f: int ensures Reserved(mods, i + 1, f) <==> Reserved(mods, i, f) || InModule(mods[i], f) {
        ReservedStep(mods, i, f);
      }
      i := i + 1;
    }
    forall j | 0 <= j < |mods| ensures Held(b.bits[..], mods[j].start, mods[j].end) {
      forall f | 0 <= f < MAX_FRAMES && InModule(mods[j], f) ensures IsSet(b.bits[..], f) {
        assert Reserved(mods, |mods|, f);
      }
      ModuleHeld(b.bits[..], mods[j]);
    }
  }

  // Although its size is passed on one byte short, all of the module is covered.
  lemma ModuleHeld(ws: seq<bv32>, m: Module)
    requires |ws| == BITMAP_WORDS && ModuleFits(m)
    requires forall f :: 0 <= f < MAX_FRAMES && InModule(m, f) ==> IsSet(ws, f)
    ensures Held(ws, m.start, m.end)
  {
  }

  /** ... and at most one frame beyond it. */
  lemma ModuleSpanIs(m: Module, f: int)
    requires ModuleFits(m)
    ensures InModule(m, f) ==> m.start / PAGE_SIZE <= f <= (m.end - 1) / PAGE_SIZE + 1
    ensures m.start / PAGE_SIZE <= f <= (m.end - 1) / PAGE_SIZE ==> InModule(m, f)
  {
  }

  /** That is no frame more if and only if the byte left out is in a page of its own, or the bytes
      but for it already reach beyond a whole number of pages from the first one's place. */
  lemma ModuleSpanIff(m: Module)
    requires ModuleFits(m)
    ensures var n, o := m.end - m.start - 1, m.start % PAGE_SIZE;
      (forall f :: InModule(m, f) <==> m.start / PAGE_SIZE <= f <= (m.end - 1) / PAGE_SIZE)
        <==> n % PAGE_SIZE == 0 || o + n % PAGE_SIZE >= PAGE_SIZE
  {
    var n, o := m.end - m.start - 1, m.start % PAGE_SIZE;
    var last := m.start / PAGE_SIZE + FrameSpan(n);
    assert m.end - 1 == PAGE_SIZE * (m.start / PAGE_SIZE + n / PAGE_SIZE) + (o + n % PAGE_SIZE);
    assert InModule(m, last) && !InModule(m, last + 1);
    assert (m.end - 1) / PAGE_SIZE == m.start / PAGE_SIZE + n / PAGE_SIZE + (o + n % PAGE_SIZE) / PAGE_SIZE;
  }

  lemma KernelHeld(ws: seq<bv32>, start: int, end: int)
    requires |ws| == BITMAP_WORDS && 0 <= start < end
    requires forall f :: 0 <= f < MAX_FRAMES && InSpan(start, end - start, f) ==> IsSet(ws, f)
    ensures Held(ws, start, end)
  {
  }

  /** The directory boot.S builds: slots 0 and 768 share the table that maps the first
      megabyte, from the second page on, and the kernel, up to the page of its end, and
      slot 1023 is the directory.  Both lie in the kernel, which is above the first megabyte. */
  ghost predicate Booted(ph: Phys, root: int, table: int, start: int, end: int) {
    && IsPhys(ph) && 0x10_0000 <= start < end && end + PAGE_SIZE < 0x40_0000
    && start / PAGE_SIZE <= root && root * PAGE_SIZE < end
    && start / PAGE_SIZE <= table && table * PAGE_SIZE < end && root != table
    && SelfMapped(ph, root)
    && (forall d :: 0 <= d < SELF ==>
          if d == 0 || d == BOOT_SLOT then Present(Pde(ph, root, d)) && FrameOf(Pde(ph, root, d)) == table
          else !Present(Pde(ph, root, d)))
    && (forall d :: d == 0 || d == BOOT_SLOT || d == SELF ==> Writable(Pde(ph, root, d)) && ForUser(Pde(ph, root, d)))
    && (forall t :: 0 < t <= end / PAGE_SIZE ==> Present(Read(ph, table, t)) && FrameOf(Read(ph, table, t)) == t)
    && (forall t :: end / PAGE_SIZE < t < ENTRIES ==> !Present(Read(ph, table, t)))
  }

  ghost function UsedFrames(s: PageState): set<int>
    requires |s.bits| == BITMAP_WORDS
  {
    set f | 0 <= f < MAX_FRAMES && Used(s, f)
  }

  // The frames in use after pmm_init.
  ghost predicate BootUsed(map_: seq<Region>, start: int, end: int, mods: seq<Module>, f: int) {
    f == 0 || (Used0(f) && !Freed(map_, |map_|, f)) || InSpan(start, end - start, f) || Reserved(mods, |mods|, f)
  }

  /** A frame that was freed is in use only if it is frame 0, or one of the kernel's or a module's,
      or the one behind those; and all of the kernel's are. */
  lemma BootUsedIs(map_: seq<Region>, start: int, end: int, mods: seq<Module>, f: int)
    requires 0 <= start < end && forall i :: 0 <= i < |mods| ==> ModuleFits(mods[i])
    ensures BootUsed(map_, start, end, mods, f) && f != 0 && Freed(map_, |map_|, f) ==>
      || start / PAGE_SIZE <= f <= (end - 1) / PAGE_SIZE + 1
      || exists i :: 0 <= i < |mods| && mods[i].start / PAGE_SIZE <= f <= (mods[i].end - 1) / PAGE_SIZE + 1
    ensures f == 0 || start / PAGE_SIZE <= f <= (end - 1) / PAGE_SIZE ==> BootUsed(map_, start, end, mods, f)
  {
    if BootUsed(map_, start, end, mods, f) && f != 0 && Freed(map_, |map_|, f) && !InSpan(start, end - start, f) {
      var i :| 0 <= i < |mods| && InModule(mods[i], f);
      ModuleSpanIs(mods[i], f);
    }
  }

  // The first address the placement heap hands out: the page behind the kernel.
  function PlacementStart(end: int): int { (end + HIGH_OFFSET) / PAGE_SIZE * PAGE_SIZE + PAGE_SIZE }

  // That is the page behind the kernel's last.
  lemma PlacementFollows(end: int)
    requires 0 < end
    ensures PlacementStart(end) % PAGE_SIZE == 0 && end < PlacementStart(end) - HIGH_OFFSET <= end + PAGE_SIZE
  {
  }

  /** pmm_init: whatever regions were freed first, every frame that holds a byte of the
      kernel or of a module is in use, and so is frame 0; and the tables and the ledger
      are in order for the kernel heap to start. */
  method PmmInit(p: Pager, memSize: int, map_: seq<Region>, start: int, end: int, mods: seq<Module>, ghost table: int)
    returns (ok: bool)
    requires 0 <= memSize < WORD_RANGE && p.bitmap.bits.Length == BITMAP_WORDS
    requires forall i :: 0 <= i < BITMAP_WORDS ==> p.bitmap.bits[i] == 0
    requires forall i :: 0 <= i < |map_| && map_[i].available ==> SpanFits(Low32(map_[i].addr), Low32(map_[i].addr))
    requires forall i :: 0 <= i < |mods| ==> ModuleFits(mods[i])
    requires Booted(p.phys, p.root, table, start, end)
    modifies p`placement, p.bitmap, p.bitmap.bits
    ensures ok <==> WordCount(memSize) < BITMAP_WORDS
    ensures ok ==>
      && |p.State().bits| == BITMAP_WORDS && IsSet(p.State().bits, 0) && Held(p.State().bits, start, end)
      && (forall i :: 0 <= i < |mods| ==> Held(p.State().bits, mods[i].start, mods[i].end))
      && (forall f :: 0 <= f < MAX_FRAMES ==>
            (IsSet(p.State().bits, f) <==> BootUsed(map_, start, end, mods, f)))
      && Good(p.State(), p.root, Ledger(map[], UsedFrames(p.State())))
      && Room(p.State(), p.root, KHEAP_START)
      && p.placement == PlacementStart(end)
      && p.bitmap.wordCount == WordCount(memSize)
  {
    hide IsSet, Good, Room, Booted, InSpan;
    BootedFits(p.phys, p.root, table, start, end);
    ok := InitBitmap(p, memSize);
    if !ok { return; }
    InitiallySet(0);
    ParseMemoryMap(p.bitmap, map_);
    DeinitRegion(p.bitmap, start, end - start);
    KernelHeld(p.bitmap.bits[..], start, end);
    PreserveModules(p.bitmap, mods);
    p.placement := PlacementStart(end);
    assert Held(p.bitmap.bits[..], start, end);
    BootIsGood(p.State(), p.root, table, start, end);
  }

  lemma BootedFits(ph: Phys, root: int, table: int, start: int, end: int)
    requires Booted(ph, root, table, start, end)
    ensures 0 < start < end && SpanFits(start, end - start)
  {
  }

  lemma BootIsGood(s: PageState, root: int, table: int, start: int, end: int)
    requires Booted(s.ph, root, table, start, end) && |s.bits| == BITMAP_WORDS && s.limit <= MAX_FRAMES
    requires Held(s.bits, start, end)
    requires s.placement == PlacementStart(end)
    ensures Good(s, root, Ledger(map[], UsedFrames(s))) && Room(s, root, KHEAP_START)
  {
    hide IsSet;
    var l := Ledger(map[], UsedFrames(s));
    assert Used(s, root) && Used(s, table);
    assert WellFormed(s, root);
    forall d | 0 <= d < ENTRIES && Present(Pde(s.ph, root, d)) ensures TableOk(s, root, d) {
      assert FrameOf(Pde(s.ph, root, d)) == if d == SELF then root else table;
    }
    forall va | UpperPage(va) && s.placement <= va < PLACEMENT_END ensures Vacant(s, root, va) {
      PlacementVacant(s, root, table, start, end, va);
    }
    forall va | UpperPage(va) && KHEAP_START <= va < KHEAP_END ensures Vacant(s, root, va) {
      HeapSlot(va);
    }
    HeapSlot(KHEAP_START);
  }

  lemma PlacementVacant(s: PageState, root: int, table: int, start: int, end: int, va: int)
    requires Booted(s.ph, root, table, start, end) && WellFormed(s, root) && UpperPage(va)
    requires s.placement == PlacementStart(end)
    requires s.placement <= va < PLACEMENT_END
    ensures Vacant(s, root, va)
  {
  }
}
