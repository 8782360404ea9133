/** The bytes of the kernel heap and the page tables lie in one physical memory.  Here they
    do, and what is stored in the heap is shown never to reach a table, nor a write to a
    table the heap: the heap's bytes can be looked at as a flat memory of their own. */
module Separation {
  import opened Machine
  import opened Memory
  import opened Bitmaps
  import opened Mmu
  import opened Pages
  import opened Frames
  import Layout
  import Allocator
  import Kernel

  // ------------------------------------------------------ bytes of a word

  lemma {:induction false} BytesOfValue(bs: seq<Byte>)
    ensures Value(bs) < Pow256(|bs|) && Bytes(Value(bs), |bs|) == bs
  {
    if bs != [] { BytesOfValue(bs[1..]); }
  }

  function WithByte(w: Word32, k: int, b: Byte): (r: Word32)
    requires 0 <= k < 4
    ensures Bytes(r, 4) == Bytes(w, 4)[k := b]
  {
    BytesOfValue(Bytes(w, 4)[k := b]);
    assert Pow256(4) == 0x1_0000_0000;
    Value(Bytes(w, 4)[k := b])
  }

  // The byte at offset o of a frame.
  function ByteIn(ph: Phys, f: int, o: int): Byte
    requires IsPhys(ph) && 0 <= f < FRAMES && 0 <= o < PAGE_SIZE
  {
    Bytes(Read(ph, f, o / 4), 4)[o % 4]
  }

  function FrameBytes(ph: Phys, f: int): (bs: seq<Byte>)
    requires IsPhys(ph) && 0 <= f < FRAMES
    ensures |bs| == PAGE_SIZE && forall o :: 0 <= o < PAGE_SIZE ==> bs[o] == ByteIn(ph, f, o)
  {
    seq(PAGE_SIZE, o requires 0 <= o < PAGE_SIZE => ByteIn(ph, f, o))
  }

  // What the processor loads from physical address a, and its memory after a store there.
  function Loaded(ph: Phys, a: int): Byte
    requires IsPhys(ph) && Address(a)
  {
    Bytes(ph[a / 4], 4)[a % 4]
  }

  function Stored(ph: Phys, a: int, b: Byte): Phys
    requires IsPhys(ph) && Address(a)
  {
    ph[a / 4 := WithByte(ph[a / 4], a % 4, b)]
  }

  lemma PlaceInFrame(f: int, o: int)
    requires 0 <= f < FRAMES && 0 <= o < PAGE_SIZE
    ensures Address(f * PAGE_SIZE + o) && (f * PAGE_SIZE + o) / 4 == At(f, o / 4) && (f * PAGE_SIZE + o) % 4 == o % 4
  {
  }

  lemma StoredBytes(ph: Phys, f: int, o: int, b: Byte)
    requires IsPhys(ph) && 0 <= f < FRAMES && 0 <= o < PAGE_SIZE
    ensures Address(f * PAGE_SIZE + o) && Loaded(ph, f * PAGE_SIZE + o) == ByteIn(ph, f, o)
    ensures var r := Stored(ph, f * PAGE_SIZE + o, b);
      && IsPhys(r)
      && (forall g, i :: 0 <= g < FRAMES && 0 <= i < ENTRIES && g != f ==> Read(r, g, i) == Read(ph, g, i))
      && forall n :: 0 <= n < PAGE_SIZE ==> ByteIn(r, f, n) == if n == o then b else ByteIn(ph, f, n)
  {
    PlaceInFrame(f, o);
    var w := WithByte(Read(ph, f, o / 4), o % 4, b);
    WriteIs(ph, f, o / 4, w);
    assert Stored(ph, f * PAGE_SIZE + o, b) == Write(ph, f, o / 4, w);
    forall n | 0 <= n < PAGE_SIZE ensures ByteIn(Write(ph, f, o / 4, w), f, n) == if n == o then b else ByteIn(ph, f, n) {
      if n / 4 == o / 4 && n % 4 == o % 4 { assert n == o; }
    }
  }

  // ---------------------------------------------------- heap and tables apart

  ghost predicate HeapPage(l: Ledger, va: int) { va in l.pages && PLACEMENT_END <= va }

  function PageOf(x: int): int { x / PAGE_SIZE * PAGE_SIZE }

  // The frames that hold the tables, and those reserved at boot.
  ghost function Kept(l: Ledger): set<int> { set f | 0 <= f < FRAMES && TableOwned(l, f) }

  // The same page state, word by word in the frames of keep.
  ghost predicate Alike(s: PageState, t: PageState, keep: set<int>) {
    && IsPhys(s.ph) && IsPhys(t.ph) && t.bits == s.bits && t.limit == s.limit && t.placement == s.placement
    && forall f, i :: 0 <= f < FRAMES && 0 <= i < ENTRIES && f in keep ==> Read(t.ph, f, i) == Read(s.ph, f, i)
  }

  // From p to q nothing changed outside the frames of keep.
  ghost predicate OnlyIn(p: Phys, q: Phys, keep: set<int>) {
    && IsPhys(p) && IsPhys(q)
    && forall f, i :: 0 <= f < FRAMES && 0 <= i < ENTRIES && f !in keep ==> Read(q, f, i) == Read(p, f, i)
  }

  // Every table is in keep.
  ghost predicate TablesIn(s: PageState, root: int, keep: set<int>)
    requires WellFormed(s, root)
  {
    root in keep && forall d :: 0 <= d < ENTRIES && Present(Pde(s.ph, root, d)) ==> FrameOf(Pde(s.ph, root, d)) in keep
  }

  lemma TablesAreKept(s: PageState, root: int, l: Ledger)
    requires Good(s, root, l)
    ensures WellFormed(s, root) && TablesIn(s, root, Kept(l))
  {
    assert FrameOf(Pde(s.ph, root, SELF)) == root;
  }

  lemma HeapFrame(s: PageState, root: int, l: Ledger, va: int)
    requires Good(s, root, l) && HeapPage(l, va)
    ensures 0 <= l.pages[va] < MAX_FRAMES && Used(s, l.pages[va]) && l.pages[va] !in Kept(l) && UpperPage(va)
  {
    hide Walk;
    assert PageOwned(s, root, va, l.pages[va]);
  }

  // Whatever the other frames hold, the walk is the same.
  lemma SameWalk(s: PageState, t: PageState, root: int, keep: set<int>, x: int)
    requires WellFormed(s, root) && TablesIn(s, root, keep) && Alike(s, t, keep) && Address(x)
    ensures Walk(t.ph, root, x) == Walk(s.ph, root, x)
    ensures HasTable(t, root, x) == HasTable(s, root, x)
    ensures HasTable(s, root, x) ==> Slot(t, root, x) == Slot(s, root, x)
  {
    IndicesOf(x);
  }

  lemma AlikeGood(s: PageState, t: PageState, root: int, l: Ledger)
    requires Good(s, root, l) && Alike(s, t, Kept(l))
    ensures Good(t, root, l) && TablesIn(t, root, Kept(l))
  {
    hide Walk, IsSet, TableOwned, Kept;
    TablesAreKept(s, root, l);
    assert forall d :: 0 <= d < ENTRIES ==> Pde(t.ph, root, d) == Pde(s.ph, root, d);
    forall d | 0 <= d < ENTRIES && Present(Pde(t.ph, root, d))
      ensures TableOk(t, root, d) && TableOwned(l, FrameOf(Pde(t.ph, root, d)))
    {
      assert TableOk(s, root, d) && TableOwned(l, FrameOf(Pde(s.ph, root, d)));
    }
    forall d, e | 0 <= d < e < SELF && HaveTables(t, root, d, e) && (d, e) != (0, BOOT_SLOT)
      ensures FrameOf(Pde(t.ph, root, d)) != FrameOf(Pde(t.ph, root, e))
    {
      assert HaveTables(s, root, d, e);
    }
    forall va | va in l.pages ensures PageOwned(t, root, va, l.pages[va]) {
      assert PageOwned(s, root, va, l.pages[va]);
      SameWalk(s, t, root, Kept(l), va);
    }
    forall f ensures Used(t, f) <==> f in l.reserved || HandedOut(l, f) {
      assert Used(s, f) <==> Used(t, f);
    }
  }

  // -------------------------------------------------- the same steps on both

  // Word i of frame h after a table is built for slot d.
  function TableWord(s: PageState, root: int, d: int, h: int, i: int): Word32
    requires WellFormed(s, root) && Address(s.placement) && 0 <= d < ENTRIES && !OutOfFrames(s)
    requires 0 <= h < FRAMES && 0 <= i < ENTRIES
  {
    if h == NextFrame(s) then 0
    else if h == root && i == d then Entry(Read(s.ph, h, i), NextFrame(s), true, true)
    else if h == FrameOf(Pde(s.ph, root, DirIndex(s.placement))) && i == TableIndex(s.placement) then
      Entry(Read(s.ph, h, i), NextFrame(s), true, false)
    else Read(s.ph, h, i)
  }

  lemma TableWords(s: PageState, root: int, d: int)
    requires Sane(s, root, NO_HOLE) && PlacementReady(s, root) && 0 <= d < SELF
    requires !Present(Pde(s.ph, root, d)) && !OutOfFrames(s)
    ensures forall h, i :: 0 <= h < FRAMES && 0 <= i < ENTRIES ==>
      Read(WithTable(s, root, d).ph, h, i) == TableWord(s, root, d, h, i)
  {
    hide Entry, WithFlags;
    IndicesOf(s.placement);
    NextFrameIsFree(s, root, NO_HOLE);
    assert TableOk(s, root, DirIndex(s.placement));
  }

  lemma SameFrames(s: PageState, t: PageState)
    requires t.bits == s.bits && t.limit == s.limit && |s.bits| == BITMAP_WORDS && s.limit <= MAX_FRAMES
    ensures NextFrame(t) == NextFrame(s) && OutOfFrames(t) == OutOfFrames(s)
    ensures !OutOfFrames(s) ==> AfterAlloc(t).bits == AfterAlloc(s).bits
  {
  }

  lemma AlikeBuild(s: PageState, t: PageState, root: int, d: int, keep: set<int>)
    requires Sane(s, root, NO_HOLE) && Sane(t, root, NO_HOLE) && TablesIn(s, root, keep) && Alike(s, t, keep)
    requires PlacementReady(s, root) && 0 <= d < SELF && !Present(Pde(s.ph, root, d)) && !OutOfFrames(s)
    ensures PlacementReady(t, root) && !Present(Pde(t.ph, root, d)) && !OutOfFrames(t)
    ensures var s', t' := WithTable(s, root, d), WithTable(t, root, d); var keep' := keep + {NextFrame(s)};
      Alike(s', t', keep') && OnlyIn(t.ph, t'.ph, keep') && WellFormed(s', root) && TablesIn(s', root, keep')
  {
    hide WithTable, NextFrame, IsSet, AfterAlloc, OutOfFrames, Entry;
    SameFrames(s, t);
    SameWalk(s, t, root, keep, s.placement);
    IndicesOf(s.placement);
    assert Pde(t.ph, root, d) == Pde(s.ph, root, d);
    TableWords(s, root, d);
    TableWords(t, root, d);
    TableBuilt(s, root, d);
    TableBuilt(t, root, d);
    BuildKeepsSane(s, root, d);
  }

  lemma AlikePte(s: PageState, t: PageState, root: int, va: int, frame: int, rw: bool, user: bool, keep: set<int>)
    requires Sane(s, root, NO_HOLE) && Sane(t, root, NO_HOLE) && TablesIn(s, root, keep) && Alike(s, t, keep)
    requires Address(va) && va < TABLE_WINDOW && HasTable(s, root, va) && 0 <= frame < FRAMES
    ensures var s' := s.(ph := WithPte(s.ph, root, va, frame, rw, user));
      var t' := t.(ph := WithPte(t.ph, root, va, frame, rw, user));
      Alike(s', t', keep) && OnlyIn(t.ph, t'.ph, keep) && WellFormed(s', root) && TablesIn(s', root, keep)
  {
    hide Entry;
    IndicesOf(va);
    PteKeepsDirectory(s, root, NO_HOLE, va, frame, rw, user);
  }

  lemma AlikeMap(s: PageState, t: PageState, root: int, pa: int, va: int, rw: bool, user: bool, keep: set<int>)
    requires Sane(s, root, NO_HOLE) && Sane(t, root, NO_HOLE) && TablesIn(s, root, keep) && Alike(s, t, keep)
    requires Address(pa) && Ready(s, root, va) && CanMap(s, root, pa, va)
    ensures Ready(t, root, va) && CanMap(t, root, pa, va)
    ensures var keep' := keep + if HasTable(s, root, va) then {} else {NextFrame(s)};
      var s', t' := AfterMap(s, root, pa, va, rw, user), AfterMap(t, root, pa, va, rw, user);
      Alike(s', t', keep') && OnlyIn(t.ph, t'.ph, keep')
  {
    hide WithTable, WithPte, NextFrame, IsSet, OutOfFrames, AfterAlloc, Walk, Alike, OnlyIn, TablesIn;
    IndicesOf(va);
    AlikeBits(s, t, keep);
    SameFrames(s, t);
    SameWalk(s, t, root, keep, va);
    SameWalk(s, t, root, keep, s.placement);
    var d := DirIndex(va);
    if HasTable(s, root, va) {
      assert keep + {} == keep;
      AlikePte(s, t, root, va, pa / PAGE_SIZE, rw, user, keep);
    } else {
      var s1, t1, keep1 := WithTable(s, root, d), WithTable(t, root, d), keep + {NextFrame(s)};
      AlikeBuild(s, t, root, d, keep);
      BuildKeepsSane(s, root, d);
      BuildKeepsSane(t, root, d);
      TableBuilt(s, root, d);
      TableBuilt(t, root, d);
      AlikePte(s1, t1, root, va, pa / PAGE_SIZE, rw, user, keep1);
      OnlyInTwice(t.ph, t1.ph, AfterMap(t, root, pa, va, rw, user).ph, keep1);
    }
  }

  lemma AlikeBits(s: PageState, t: PageState, keep: set<int>)
    requires Alike(s, t, keep)
    ensures t.bits == s.bits && t.limit == s.limit && t.placement == s.placement && IsPhys(s.ph) && IsPhys(t.ph)
  {
  }

  lemma OnlyInTwice(p: Phys, q: Phys, r: Phys, keep: set<int>)
    requires OnlyIn(p, q, keep) && OnlyIn(q, r, keep)
    ensures OnlyIn(p, r, keep)
  {
  }

  // ------------------------------------------------------------ the two views

  // The kernel with its heap apart: the page state, in which no store to the heap shows,
  // and a flat memory.
  datatype View = View(pages: PageState, ledger: Ledger, mem: seq<Byte>)

  // A byte stored in the heap; a page of the heap acquired, or given back.
  datatype Step = Store(x: int, b: Byte) | Acquire(va: int) | Release(va: int)

  ghost predicate Possible(v: View, root: int, step: Step)
    requires WellFormed(v.pages, root)
  {
    match step
    case Store(x, _) => HeapPage(v.ledger, PageOf(x))
    case Acquire(va) =>
      && PLACEMENT_END <= va && Ready(v.pages, root, va) && !OutOfFrames(v.pages)
      && CanMap(AfterAlloc(v.pages), root, NextFrame(v.pages) * PAGE_SIZE, va)
    case Release(va) => HeapPage(v.ledger, va)
  }

  /** t is the machine as it is, all in one memory; v the same with the heap apart. */
  ghost predicate Matches(t: PageState, v: View, root: int) {
    && Good(v.pages, root, v.ledger) && Alike(v.pages, t, Kept(v.ledger)) && |v.mem| == MEMORY_SIZE
    && Shows(t, v.ledger, v.mem)
  }

  // The frames of the heap hold mem.
  ghost predicate Shows(t: PageState, l: Ledger, mem: seq<Byte>)
    requires IsPhys(t.ph) && |mem| == MEMORY_SIZE
  {
    forall va :: HeapPage(l, va) ==> PageShows(t, l, va, mem)
  }

  ghost predicate PageShows(t: PageState, l: Ledger, va: int, mem: seq<Byte>)
    requires IsPhys(t.ph) && |mem| == MEMORY_SIZE && va in l.pages
  {
    && 0 <= va <= MEMORY_SIZE - PAGE_SIZE && 0 <= l.pages[va] < FRAMES
    && forall o :: 0 <= o < PAGE_SIZE ==> mem[va + o] == ByteIn(t.ph, l.pages[va], o)
  }

  /** What the processor loads from an address of the heap is what the flat memory holds. */
  lemma LoadsFlat(t: PageState, v: View, root: int, x: int)
    requires Matches(t, v, root) && HeapPage(v.ledger, PageOf(x))
    ensures 0 <= root < FRAMES && IsPhys(t.ph) && IsPhys(v.pages.ph) && 0 <= x < MEMORY_SIZE
    ensures var f, o := v.ledger.pages[PageOf(x)], x % PAGE_SIZE;
      0 <= f < FRAMES && Walk(t.ph, root, x) == KernelPage(f * PAGE_SIZE + o) && Loaded(t.ph, f * PAGE_SIZE + o) == v.mem[x]
  {
    hide Walk, ByteIn;
    var va := PageOf(x);
    AlikeGood(v.pages, t, root, v.ledger);
    HeapFrame(t, root, v.ledger, va);
    assert PageShows(t, v.ledger, va, v.mem) && PageOwned(t, root, va, v.ledger.pages[va]);
    WalkOffset(t, root, va, x % PAGE_SIZE);
    StoredBytes(t.ph, v.ledger.pages[va], x % PAGE_SIZE, 0);
  }

  // The machine after a step: what is stored goes where the walk leads.
  ghost function Real(t: PageState, root: int, l: Ledger, step: Step): PageState
    requires Good(t, root, l) && Possible(View(t, l, []), root, step)
  {
    match step
    case Store(x, b) =>
      HeapByte(t, root, l, x);
      t.(ph := Stored(t.ph, Walk(t.ph, root, x).value.pa, b))
    case Acquire(va) => AfterMapNew(t, root, va)
    case Release(va) =>
      HeapFrame(t, root, l, va);
      AfterUnmapFree(t, root, va, l.pages[va])
  }

  lemma HeapByte(t: PageState, root: int, l: Ledger, x: int)
    requires Good(t, root, l) && HeapPage(l, PageOf(x))
    ensures Address(x) && Walk(t.ph, root, x) == KernelPage(l.pages[PageOf(x)] * PAGE_SIZE + x % PAGE_SIZE)
  {
    hide Walk;
    HeapFrame(t, root, l, PageOf(x));
    assert PageOwned(t, root, PageOf(x), l.pages[PageOf(x)]);
    WalkOffset(t, root, PageOf(x), x % PAGE_SIZE);
  }

  // With the heap apart a store changes the flat memory alone, and an acquired page holds
  // what was found in its frame.
  ghost function Flat(v: View, root: int, step: Step, found: seq<Byte>): View
    requires Good(v.pages, root, v.ledger) && Possible(v, root, step) && |v.mem| == MEMORY_SIZE && |found| == PAGE_SIZE
  {
    match step
    case Store(x, b) =>
      HeapByte(v.pages, root, v.ledger, x);
      v.(mem := v.mem[x := b])
    case Acquire(va) =>
      View(AfterMapNew(v.pages, root, va), WithNewPage(v.pages, root, v.ledger, va), Put(v.mem, va, found))
    case Release(va) =>
      HeapFrame(v.pages, root, v.ledger, va);
      View(AfterUnmapFree(v.pages, root, va, v.ledger.pages[va]), WithoutPage(v.ledger, va), v.mem)
  }

  // What is found in the frame of an acquired page.
  ghost function Found(t: PageState, root: int, l: Ledger, step: Step): (bs: seq<Byte>)
    requires Good(t, root, l) && Possible(View(t, l, []), root, step)
    ensures |bs| == PAGE_SIZE
  {
    match step
    case Acquire(va) =>
      NextInRange(t);
      FrameBytes(AfterMapNew(t, root, va).ph, NextFrame(t))
    case _ => seq(PAGE_SIZE, _ => 0)
  }

  lemma StoreMatches(t: PageState, v: View, root: int, x: int, b: Byte)
    requires Matches(t, v, root) && HeapPage(v.ledger, PageOf(x)) && Good(t, root, v.ledger)
    ensures Address(x) && Walk(t.ph, root, x).Some?
    ensures Matches(t.(ph := Stored(t.ph, Walk(t.ph, root, x).value.pa, b)), v.(mem := v.mem[x := b]), root)
  {
    hide Walk, ByteIn, Kept, Good;
    var f, o, l := v.ledger.pages[PageOf(x)], x % PAGE_SIZE, v.ledger;
    HeapByte(t, root, l, x);
    HeapFrame(t, root, l, PageOf(x));
    StoredBytes(t.ph, f, o, b);
    var t', mem' := t.(ph := Stored(t.ph, f * PAGE_SIZE + o, b)), v.mem[x := b];
    forall va | HeapPage(l, va) ensures PageShows(t', l, va, mem') {
      HeapFrame(t, root, l, va);
      assert PageShows(t, l, va, v.mem);
      if va != PageOf(x) {
        DifferentFrames(t, root, l, va, PageOf(x));
        SameFrameBytes(t, t', l.pages[va]);
      }
    }
  }

  lemma DifferentFrames(t: PageState, root: int, l: Ledger, va: int, wa: int)
    requires Good(t, root, l) && va in l.pages && wa in l.pages && va != wa
    ensures l.pages[va] != l.pages[wa]
  {
  }

  lemma SameFrameBytes(t: PageState, t': PageState, f: int)
    requires IsPhys(t.ph) && IsPhys(t'.ph) && 0 <= f < FRAMES
    requires forall i :: 0 <= i < ENTRIES ==> Read(t'.ph, f, i) == Read(t.ph, f, i)
    ensures forall o :: 0 <= o < PAGE_SIZE ==> ByteIn(t'.ph, f, o) == ByteIn(t.ph, f, o)
  {
  }

  lemma NextInRange(s: PageState)
    requires |s.bits| == BITMAP_WORDS && s.limit <= MAX_FRAMES && !OutOfFrames(s)
    ensures 0 <= NextFrame(s) < MAX_FRAMES && !Used(s, NextFrame(s))
  {
  }

  lemma KeptWithNewPage(s: PageState, root: int, l: Ledger, va: int)
    requires Good(s, root, l) && PLACEMENT_END <= va && Ready(s, root, va) && !OutOfFrames(s)
    requires HasTable(s, root, va) || !OutOfFrames(AfterAlloc(s))
    ensures var a := AfterAlloc(s);
      Kept(WithNewPage(s, root, l, va)) == Kept(l) + if HasTable(s, root, va) then {} else {NextFrame(a)}
  {
    hide Good, Walk, NextFrame, OutOfFrames, IsSet;
    GoodIsSane(s, root, l);
    var a, m := AfterAlloc(s), WithNewPage(s, root, l, va);
    VacantIsUnowned(s, root, l, va);
    var more := if HasTable(s, root, va) then {} else {NextFrame(a)};
    if !HasTable(s, root, va) {
      NextInRange(a);
      VacantIsUnowned(s, root, l, s.placement);
      assert m.pages[s.placement] == NextFrame(a);
    }
    forall f | 0 <= f < FRAMES ensures TableOwned(m, f) <==> TableOwned(l, f) || f in more {
      if TableOwned(l, f) && f !in l.reserved {
        var wa :| wa in l.pages && wa < PLACEMENT_END && l.pages[wa] == f;
        assert m.pages[wa] == f;
      }
    }
  }

  lemma AlikeAlloc(s: PageState, t: PageState, root: int, l: Ledger)
    requires Good(s, root, l) && Good(t, root, l) && Alike(s, t, Kept(l)) && !OutOfFrames(s)
    ensures NextFrame(t) == NextFrame(s) && !OutOfFrames(t)
    ensures var a, b := AfterAlloc(s), AfterAlloc(t);
      && Sane(a, root, NO_HOLE) && Sane(b, root, NO_HOLE) && TablesIn(a, root, Kept(l)) && Alike(a, b, Kept(l))
      && b.ph == t.ph && a.ph == s.ph && |b.bits| == BITMAP_WORDS
      && (!OutOfFrames(a) ==> !Used(t, NextFrame(a)))
  {
    hide Kept, Walk, IsSet, NextFrame, OutOfFrames, TableOwned;
    SameFrames(s, t);
    TablesAreKept(s, root, l);
    AllocKeepsGood(s, root, l);
    AllocKeepsGood(t, root, l);
    var a := AfterAlloc(s);
    if !OutOfFrames(a) {
      NextInRange(a);
      AllocKeepsUsed(t, NextFrame(a));
    }
  }

  lemma AlikeReady(s: PageState, t: PageState, root: int, keep: set<int>, va: int)
    requires WellFormed(s, root) && WellFormed(t, root) && TablesIn(s, root, keep) && Alike(s, t, keep) && Ready(s, root, va)
    ensures Ready(t, root, va) && UpperPage(va)
  {
    hide Walk;
    SameWalk(s, t, root, keep, va);
    SameWalk(s, t, root, keep, s.placement);
  }

  // A page acquired at va in frame f, and perhaps a page for its table.
  ghost predicate Acquired(l: Ledger, l': Ledger, va: int, f: int) {
    && va in l'.pages && l'.pages[va] == f
    && forall wa :: HeapPage(l', wa) && wa != va ==> HeapPage(l, wa) && l'.pages[wa] == l.pages[wa]
  }

  lemma NewPageAcquired(s: PageState, root: int, l: Ledger, va: int)
    requires Good(s, root, l) && PLACEMENT_END <= va && Ready(s, root, va) && !OutOfFrames(s)
    ensures Acquired(l, WithNewPage(s, root, l, va), va, NextFrame(s))
  {
    hide NextFrame, OutOfFrames, Walk;
  }

  // The other pages of the heap show what they did.
  lemma AcquireShows(t: PageState, t': PageState, root: int, l: Ledger, l': Ledger, va: int, f: int, keep: set<int>,
                     mem: seq<Byte>)
    requires Good(t, root, l) && |mem| == MEMORY_SIZE && Shows(t, l, mem) && Acquired(l, l', va, f) && UpperPage(va)
    requires OnlyIn(t.ph, t'.ph, keep) && 0 <= f < FRAMES
    requires forall wa :: HeapPage(l, wa) ==> l.pages[wa] !in keep
    ensures Shows(t', l', Put(mem, va, FrameBytes(t'.ph, f)))
  {
    hide Good, ByteIn, Walk;
    var mem' := Put(mem, va, FrameBytes(t'.ph, f));
    forall wa | HeapPage(l', wa) ensures PageShows(t', l', wa, mem') {
      if wa != va {
        HeapFrame(t, root, l, wa);
        assert PageShows(t, l, wa, mem);
        SameFrameBytes(t, t', l.pages[wa]);
        PagesApart(va, wa);
      }
    }
  }

  lemma PagesApart(va: int, wa: int)
    requires va % PAGE_SIZE == 0 && wa % PAGE_SIZE == 0 && va != wa
    ensures va + PAGE_SIZE <= wa || wa + PAGE_SIZE <= va
  {
  }

  lemma AcquireMatches(t: PageState, v: View, root: int, va: int)
    requires Matches(t, v, root) && Possible(v, root, Acquire(va)) && Good(t, root, v.ledger)
    ensures Possible(View(t, v.ledger, []), root, Acquire(va))
    ensures var t' := AfterMapNew(t, root, va);
      && 0 <= NextFrame(t) < FRAMES
      && Matches(t', Flat(v, root, Acquire(va), FrameBytes(t'.ph, NextFrame(t))), root)
  {
    hide Walk, ByteIn, Kept, Good, NextFrame, OutOfFrames, IsSet, AfterMap, CanMap, Ready, Alike, OnlyIn, TablesIn,
         AfterAlloc, Shows, Put, PageShows, WithNewPage;
    var s, l := v.pages, v.ledger;
    GoodIsSane(s, root, l);
    GoodIsSane(t, root, l);
    TablesAreKept(s, root, l);
    AlikeReady(s, t, root, Kept(l), va);
    OnlyFramesRunOut(s, root, l, va);
    AlikeAlloc(s, t, root, l);
    NextInRange(s);
    var f, a, b, l' := NextFrame(s), AfterAlloc(s), AfterAlloc(t), WithNewPage(s, root, l, va);
    ReadyAfterAlloc(s, root, l, va);
    AlikeMap(a, b, root, f * PAGE_SIZE, va, true, false, Kept(l));
    var t', keep' := AfterMapNew(t, root, va), Kept(l) + if HasTable(a, root, va) then {} else {NextFrame(a)};
    KeptWithNewPage(s, root, l, va);
    MapNewKeepsGood(s, root, l, va);
    NewPageAcquired(s, root, l, va);
    forall wa | HeapPage(l, wa) ensures l.pages[wa] !in keep' {
      HeapFrame(t, root, l, wa);
      assert Used(t, l.pages[wa]);
    }
    AcquireShows(t, t', root, l, l', va, f, keep', v.mem);
  }

  lemma KeptWithoutPage(l: Ledger, va: int)
    requires PLACEMENT_END <= va
    ensures Kept(WithoutPage(l, va)) == Kept(l)
  {
    var m := WithoutPage(l, va);
    forall f | 0 <= f < FRAMES ensures TableOwned(m, f) <==> TableOwned(l, f) {
      if TableOwned(l, f) { TableStaysOwned(l, va, f); }
    }
  }

  lemma AlikeUnmap(s: PageState, t: PageState, root: int, va: int, f: int, keep: set<int>)
    requires WellFormed(s, root) && WellFormed(t, root) && TablesIn(s, root, keep) && Alike(s, t, keep)
    requires Address(va) && HasTable(s, root, va) && 0 <= f < MAX_FRAMES
    ensures var s', t' := AfterUnmapFree(s, root, va, f), AfterUnmapFree(t, root, va, f);
      Alike(s', t', keep) && OnlyIn(t.ph, t'.ph, keep)
  {
    IndicesOf(va);
  }

  lemma ReleaseMatches(t: PageState, v: View, root: int, va: int)
    requires Matches(t, v, root) && Good(t, root, v.ledger) && HeapPage(v.ledger, va)
    ensures Address(va) && 0 <= v.ledger.pages[va] < MAX_FRAMES
    ensures var f := v.ledger.pages[va];
      var s', t' := AfterUnmapFree(v.pages, root, va, f), AfterUnmapFree(t, root, va, f);
      Matches(t', View(s', WithoutPage(v.ledger, va), v.mem), root)
  {
    hide Walk, ByteIn, Kept, Good, IsSet, AfterUnmapFree, Alike, OnlyIn, TablesIn;
    var s, l := v.pages, v.ledger;
    var f, l' := l.pages[va], WithoutPage(l, va);
    GoodIsSane(s, root, l);
    GoodIsSane(t, root, l);
    UnmapFreeKeepsGood(s, root, l, va);
    TablesAreKept(s, root, l);
    var t' := AfterUnmapFree(t, root, va, f);
    AlikeUnmap(s, t, root, va, f, Kept(l));
    KeptWithoutPage(l, va);
    forall wa | HeapPage(l', wa) ensures PageShows(t', l', wa, v.mem) {
      HeapFrame(t, root, l, wa);
      assert PageShows(t, l, wa, v.mem);
      ElsewhereSame(t, t', Kept(l), l.pages[wa]);
    }
  }

  lemma ElsewhereSame(t: PageState, t': PageState, keep: set<int>, f: int)
    requires OnlyIn(t.ph, t'.ph, keep) && 0 <= f < FRAMES && f !in keep
    ensures forall o :: 0 <= o < PAGE_SIZE ==> ByteIn(t'.ph, f, o) == ByteIn(t.ph, f, o)
  {
  }

  /** Each step on the machine is the same step with the heap apart. */
  lemma StepMatches(t: PageState, v: View, root: int, step: Step)
    requires Matches(t, v, root) && Possible(v, root, step)
    ensures Good(t, root, v.ledger) && Possible(View(t, v.ledger, []), root, step)
    ensures Matches(Real(t, root, v.ledger, step), Flat(v, root, step, Found(t, root, v.ledger, step)), root)
  {
    hide Walk, ByteIn, Kept, Good, NextFrame, OutOfFrames, IsSet, AfterMapNew, AfterUnmapFree, Alike, Shows, Put, Ready,
         CanMap, WithNewPage, Stored, AfterAlloc, FrameBytes;
    AlikeGood(v.pages, t, root, v.ledger);
    match step
    case Store(x, b) => StoreMatches(t, v, root, x, b);
    case Acquire(va) => AcquireMatches(t, v, root, va);
    case Release(va) => ReleaseMatches(t, v, root, va);
  }

  // ------------------------------------------------------------ where it starts

  // The flat memory there is to begin with: what the frames of the heap hold.
  ghost function FlatOf(t: PageState, root: int, l: Ledger): (mem: seq<Byte>)
    requires Good(t, root, l)
    ensures |mem| == MEMORY_SIZE
  {
    seq(MEMORY_SIZE, x requires 0 <= x < MEMORY_SIZE => HeldAt(t, root, l, x))
  }

  ghost function HeldAt(t: PageState, root: int, l: Ledger, x: int): Byte
    requires Good(t, root, l) && 0 <= x
  {
    if HeapPage(l, PageOf(x)) then
      HeapFrame(t, root, l, PageOf(x));
      ByteIn(t.ph, l.pages[PageOf(x)], x % PAGE_SIZE)
    else 0
  }

  lemma FlatAt(t: PageState, root: int, l: Ledger, va: int, o: int)
    requires Good(t, root, l) && HeapPage(l, va) && 0 <= o < PAGE_SIZE
    ensures UpperPage(va) && 0 <= l.pages[va] < FRAMES && IsPhys(t.ph)
    ensures FlatOf(t, root, l)[va + o] == ByteIn(t.ph, l.pages[va], o)
  {
    hide Good, ByteIn, Kept, PageOf;
    GoodIsSane(t, root, l);
    HeapFrame(t, root, l, va);
    InPage(va, o);
    HeldIs(t, root, l, va + o);
  }

  lemma InPage(va: int, o: int)
    requires va % PAGE_SIZE == 0 && 0 <= o < PAGE_SIZE
    ensures PageOf(va + o) == va && (va + o) % PAGE_SIZE == o
  {
  }

  lemma HeldIs(t: PageState, root: int, l: Ledger, x: int)
    requires Good(t, root, l) && 0 <= x < MEMORY_SIZE
    ensures FlatOf(t, root, l)[x] == HeldAt(t, root, l, x)
  {
  }

  /** Every good state of the machine has its view. */
  lemma ViewOf(t: PageState, root: int, l: Ledger)
    requires Good(t, root, l)
    ensures Matches(t, View(t, l, FlatOf(t, root, l)), root)
  {
    hide Good, ByteIn, Kept, FlatOf;
    var mem := FlatOf(t, root, l);
    assert |mem| == MEMORY_SIZE by { FlatSize(t, root, l); }
    GoodIsSane(t, root, l);
    forall va | HeapPage(l, va) ensures PageShows(t, l, va, mem) {
      FlatAt(t, root, l, va, 0);
      forall o | 0 <= o < PAGE_SIZE ensures mem[va + o] == ByteIn(t.ph, l.pages[va], o) {
        FlatAt(t, root, l, va, o);
      }
    }
  }

  lemma FlatSize(t: PageState, root: int, l: Ledger)
    requires Good(t, root, l)
    ensures |FlatOf(t, root, l)| == MEMORY_SIZE
  {
  }

  /** What the allocator stores to, always inside a major, is in the heap. */
  lemma MajorIsHeap(m: Kernel.KernelMemory, a: int, n: int, x: int)
    requires m.Valid() && Allocator.InMajor(m.alloc.layout, a, n) && a <= x < a + n
    ensures HeapPage(m.heap.ledger, PageOf(x))
  {
    hide Walk, Used;
    var i :| 0 <= i < |m.alloc.layout| && m.alloc.layout[i].base <= a && a + n <= Layout.Limit(m.alloc.layout[i]);
    Kernel.MajorBytesMapped(m, i, x);
    assert Layout.WellPlaced(m.alloc.layout[i]);
  }

  // ----------------------------------------------------------- over whole runs

  // Both after a step.
  ghost function Next(t: PageState, v: View, root: int, step: Step): (n: (PageState, View))
    requires Matches(t, v, root) && Possible(v, root, step)
    ensures Matches(n.0, n.1, root)
  {
    StepMatches(t, v, root, step);
    (Real(t, root, v.ledger, step), Flat(v, root, step, Found(t, root, v.ledger, step)))
  }

  // Every step is possible when its turn comes.
  ghost predicate AllPossible(t: PageState, v: View, root: int, steps: seq<Step>)
    requires Matches(t, v, root)
    decreases |steps|
  {
    steps == [] ||
    (Possible(v, root, steps[0]) && var n := Next(t, v, root, steps[0]); AllPossible(n.0, n.1, root, steps[1..]))
  }

  ghost function Run(t: PageState, v: View, root: int, steps: seq<Step>): (r: (PageState, View))
    requires Matches(t, v, root) && AllPossible(t, v, root, steps)
    ensures Matches(r.0, r.1, root)
    decreases |steps|
  {
    if steps == [] then (t, v)
    else
      var n := Next(t, v, root, steps[0]);
      Run(n.0, n.1, root, steps[1..])
  }

  /** Over every run the machine with all in one memory and the one with the heap apart
      agree: on every translation, and on every byte of the heap. */
  lemma {:induction false} RunsMatch(t: PageState, v: View, root: int, steps: seq<Step>)
    requires Matches(t, v, root) && AllPossible(t, v, root, steps)
    ensures var (t', v') := Run(t, v, root, steps);
      && Matches(t', v', root) && Good(t', root, v'.ledger)
      && IsPhys(t'.ph) && IsPhys(v'.pages.ph) && 0 <= root < FRAMES
      && (forall x :: Address(x) ==> Walk(t'.ph, root, x) == Walk(v'.pages.ph, root, x))
      && forall x :: HeapPage(v'.ledger, PageOf(x)) ==> HeapShows(t', v', root, x)
    decreases |steps|
  {
    hide Walk, ByteIn, Kept, Good, NextFrame, OutOfFrames, IsSet, Alike, Shows, Put, Possible, Real, Flat, Found;
    if steps == [] {
      Agreement(t, v, root);
    } else {
      var n := Next(t, v, root, steps[0]);
      RunsMatch(n.0, n.1, root, steps[1..]);
    }
  }

  // The processor loads from x what the flat memory holds.
  ghost predicate HeapShows(t: PageState, v: View, root: int, x: int) {
    && IsPhys(t.ph) && 0 <= root < FRAMES && 0 <= x < MEMORY_SIZE == |v.mem|
    && Walk(t.ph, root, x).Some? && Loaded(t.ph, Walk(t.ph, root, x).value.pa) == v.mem[x]
  }

  lemma Agreement(t: PageState, v: View, root: int)
    requires Matches(t, v, root)
    ensures Good(t, root, v.ledger) && IsPhys(t.ph) && IsPhys(v.pages.ph) && 0 <= root < FRAMES
    ensures forall x :: Address(x) ==> Walk(t.ph, root, x) == Walk(v.pages.ph, root, x)
    ensures forall x :: HeapPage(v.ledger, PageOf(x)) ==> HeapShows(t, v, root, x)
  {
    hide Walk, ByteIn, Kept, Loaded, IsSet;
    AlikeGood(v.pages, t, root, v.ledger);
    TablesAreKept(v.pages, root, v.ledger);
    forall x | Address(x) ensures Walk(t.ph, root, x) == Walk(v.pages.ph, root, x) {
      SameWalk(v.pages, t, root, Kept(v.ledger), x);
    }
    forall x | HeapPage(v.ledger, PageOf(x)) ensures HeapShows(t, v, root, x) {
      LoadsFlat(t, v, root, x);
    }
  }
}
