/** The kernel's memory from the boot on, over any sequence of calls to the allocator. */
module Service {
  import opened Machine
  import opened Layout
  import opened Search
  import opened Allocator
  import opened Headers
  import opened History
  import opened Memory
  import opened Kernel
  import opened Accounts
  import M = Mmu
  import P = Pages
  import F = Frames
  import KernelHeap
  import B = Boot
  import Modules
  import Paging
  import U = Startup
  import C = Console

  // ------------------------------------------------------- what has been written

  /** Every byte of a live payload is what was last written to it, if anything was. */
  ghost predicate Remembers(m: seq<Byte>, books: Books) {
    forall p, j :: p in books && 0 <= j < |books[p]| ==> CellShows(m, p + j, books[p][j])
  }

  predicate CellShows(m: seq<Byte>, x: int, cell: Option<Byte>) {
    cell.Some? ==> 0 <= x < |m| && m[x] == cell.value
  }

  // A live payload is in memory, and what keeps all minors keeps its bytes.
  lemma LiveKept(s: HeapState, m: seq<Byte>, m': seq<Byte>, sizes: map<int, int>, lo: int, hi: int,
                 p: int)
    requires Sane(s) && |m| == |m'| == MEMORY_SIZE && Agrees(s.layout, sizes) && p in sizes
    requires Kept(m, m', s.layout, lo, hi)
    ensures SameOn(m, m', p, sizes[p])
  {
    hide Sane, PayloadOf, BodyOf, EndOf;
    assert Holds(s.layout, p, sizes[p]);
    var i, k :| Listed(s.layout, i, k) && HeldBy(s.layout[i].chunks[k], p, sizes[p]);
    assert SameOn(m, m', BodyOf(s.layout[i].chunks[k]), s.layout[i].chunks[k].size);
    LivePayload(s, i, k);
  }

  lemma LiveKeptBut(s: HeapState, m: seq<Byte>, m': seq<Byte>, sizes: map<int, int>, lo: int, hi: int,
                    i: int, k: int, p: int)
    requires Sane(s) && |m| == |m'| == MEMORY_SIZE && Agrees(s.layout, sizes) && p in sizes && Listed(s.layout, i, k)
    requires KeptBut(m, m', s.layout, lo, hi, i, k) && p != PayloadOf(s.layout[i].chunks[k].addr)
    ensures SameOn(m, m', p, sizes[p])
  {
    hide Sane, PayloadOf, BodyOf, EndOf;
    assert Holds(s.layout, p, sizes[p]);
    var j, n :| Listed(s.layout, j, n) && HeldBy(s.layout[j].chunks[n], p, sizes[p]);
    assert SameOn(m, m', BodyOf(s.layout[j].chunks[n]), s.layout[j].chunks[n].size);
    LivePayload(s, j, n);
  }

  lemma LivePayload(s: HeapState, i: int, k: int)
    requires Sane(s) && Listed(s.layout, i, k)
    ensures var c := s.layout[i].chunks[k];
      && BodyOf(c) <= PayloadOf(c.addr) && PayloadOf(c.addr) + c.req <= BodyOf(c) + c.size
  {
    MinorInside(s, i, k);
  }

  lemma KeptIsRemembered(s: HeapState, m: seq<Byte>, m': seq<Byte>, books: Books, lo: int, hi: int)
    requires Sane(s) && |m| == |m'| == MEMORY_SIZE && Agrees(s.layout, Sizes(books)) && Kept(m, m', s.layout, lo, hi)
    requires Remembers(m, books)
    ensures Remembers(m', books)
  {
    hide Sane, Agrees, Kept;
    forall p, j | p in books && 0 <= j < |books[p]| ensures CellShows(m', p + j, books[p][j]) {
      LiveKept(s, m, m', Sizes(books), lo, hi, p);
      assert CellShows(m, p + j, books[p][j]);
    }
  }

  lemma OthersAreRemembered(s: HeapState, m: seq<Byte>, m': seq<Byte>, books: Books, lo: int, hi: int,
                            i: int, k: int, ptr: int)
    requires Sane(s) && |m| == |m'| == MEMORY_SIZE && Agrees(s.layout, Sizes(books)) && Points(s.layout, i, k, ptr)
    requires Remembers(m, books) && KeptBut(m, m', s.layout, lo, hi, i, k)
    ensures Remembers(m', books - {ptr})
  {
    hide Sane, Agrees, KeptBut, PayloadOf;
    forall p, j | p in books - {ptr} && 0 <= j < |books[p]| ensures CellShows(m', p + j, books[p][j]) {
      LiveKeptBut(s, m, m', Sizes(books), lo, hi, i, k, p);
      assert CellShows(m, p + j, books[p][j]);
    }
  }

  lemma NewIsRemembered(m: seq<Byte>, books: Books, p: int, cells: seq<Option<Byte>>)
    requires Remembers(m, books) && forall j :: 0 <= j < |cells| ==> CellShows(m, p + j, cells[j])
    ensures Remembers(m, books[p := cells])
  {
  }

  // What was moved to q, with more room there.
  lemma MovedIsRemembered(m: seq<Byte>, m': seq<Byte>, books: Books, ptr: int, q: int, size: int)
    requires Remembers(m, books) && ptr in books && |books[ptr]| <= size && MovedBytes(m, m', ptr, q, |books[ptr]|)
    requires Remembers(m', books - {ptr})
    ensures Remembers(m', (books - {ptr})[q := Fitted(books[ptr], size)])
  {
    var old_, cells := books[ptr], Fitted(books[ptr], size);
    forall j | 0 <= j < |cells| ensures CellShows(m', q + j, cells[j]) {
      if j < |old_| { assert CellShows(m, ptr + j, old_[j]); }
    }
    NewIsRemembered(m', books - {ptr}, q, cells);
  }

  lemma CutIsRemembered(m: seq<Byte>, books: Books, ptr: int, size: int)
    requires Remembers(m, books) && ptr in books && 0 <= size <= |books[ptr]|
    ensures Remembers(m, (books - {ptr})[ptr := Fitted(books[ptr], size)])
  {
    forall j | 0 <= j < size ensures CellShows(m, ptr + j, Fitted(books[ptr], size)[j]) {
      assert CellShows(m, ptr + j, books[ptr][j]);
    }
    NewIsRemembered(m, books - {ptr}, ptr, Fitted(books[ptr], size));
  }

  // A store to a payload is to none of the others.
  lemma StoreIsRemembered(s: HeapState, m: seq<Byte>, books: Books, i: int, k: int, ptr: int, at: int, b: Byte)
    requires Sane(s) && |m| == MEMORY_SIZE && Image(m, s.layout) && Agrees(s.layout, Sizes(books))
    requires Points(s.layout, i, k, ptr) && ptr in books && s.layout[i].chunks[k].req == |books[ptr]|
    requires Remembers(m, books) && 0 <= at < |books[ptr]| && 0 <= ptr + at < |m|
    ensures Remembers(m[ptr + at := b], books[ptr := books[ptr][at := Some(b)]])
  {
    hide Sane, Agrees, PayloadOf, Image;
    var m', cells := m[ptr + at := b], books[ptr][at := Some(b)];
    PayloadWrite(s, m, m', i, k);
    OthersAreRemembered(s, m, m', books, s.brk, s.brk, i, k, ptr);
    forall j | 0 <= j < |cells| ensures CellShows(m', ptr + j, cells[j]) {
      assert CellShows(m, ptr + j, books[ptr][j]);
    }
    NewIsRemembered(m', books - {ptr}, ptr, cells);
    assert (books - {ptr})[ptr := cells] == books[ptr := cells];
  }

  // ------------------------------------------------------------- on the kernel

  ghost function AccountOf(k: KernelMemory): Account
    requires k.Valid()
    reads k.alloc, k.heap, k.heap.pager, k.heap.pager.bitmap, k.heap.pager.bitmap.bits
  {
    Account(k.alloc.State(), k.heap.Available(), k.heap.HeapTable())
  }

  /** The kernel is running, what the callers have is what is live, and holds what they
      wrote to it. */
  ghost predicate Serving(k: KernelMemory, start: int, end: int, mods: seq<B.Module>, books: Books)
    reads k.alloc, k.heap, k.heap.pager, k.heap.pager.bitmap, k.heap.pager.bitmap.bits
  {
    U.Running(k, start, end, mods) && InOrder(AccountOf(k), books) && Remembers(k.alloc.mem, books)
  }

  // The modules fit below the console.
  ghost predicate ModulesFit(mods: seq<B.Module>) {
    (forall i :: 0 <= i < |mods| ==> B.ModuleFits(mods[i])) && Modules.Position(mods, |mods|) <= C.VGA_HIGH
  }

  lemma StillRunning(s: P.PageState, l: F.Ledger, k: KernelMemory, start: int, end: int, mods: seq<B.Module>)
    requires ModulesFit(mods) && k.Valid() && k.CanExtend()
    requires P.WellFormed(s, k.heap.pager.root) && U.Protected(l, start, end, mods)
    requires Modules.AllMapped(s, k.heap.pager.root, mods) && Modules.AllApart(s, k.heap.pager.root, mods)
    requires forall j :: 0 <= j < C.VGA_PAGES ==> C.High(s, k.heap.pager.root, j)
    requires M.IsPhys(k.heap.pager.phys)
    requires F.Undisturbed(s, k.heap.pager.State(), k.heap.pager.root, KHEAP_START, KHEAP_END)
    requires k.heap.ledger.reserved == l.reserved
    ensures U.Running(k, start, end, mods)
  {
    hide F.Good, U.Protected, Modules.AllMapped, Modules.AllApart, C.High, F.Undisturbed, Modules.Position;
    var r, root := k.heap.pager.State(), k.heap.pager.root;
    k.heap.Still(0, 0);
    k.heap.PlacementBound();
    U.ModulesSurvive(s, r, root, mods);
    U.HighUndisturbed(s, r, root, KHEAP_START, KHEAP_END);
    U.SameCovered(l, k.heap.ledger, start, end, mods);
  }

  // kmalloc or kcalloc.
  method Allocate(k: KernelMemory, call: Call, ghost books: Books, ghost start: int, ghost end: int, ghost mods: seq<B.Module>)
    returns (r: Outcome)
    requires Serving(k, start, end, mods, books) && ModulesFit(mods) && Proper(call, books) && (call.Malloc? || call.Calloc?)
    modifies k.alloc, k.heap, k.heap.pager`phys, k.heap.pager`placement, k.heap.pager.bitmap.bits
    ensures r == Panic <==> old(Fails(AccountOf(k), call, books))
    ensures r.Ret? ==>
      && r.p == old(Result(AccountOf(k), call, books)) && Serving(k, start, end, mods, Noted(books, call, r.p))
      && AccountOf(k) == old(AfterCall(AccountOf(k), call, books)) && k.Traced()
  {
    hide F.Good, KernelHeap.Room, AfterMalloc, Search.Returned, Agrees, U.Protected, Modules.AllMapped, Modules.AllApart,
         C.High, F.Undisturbed, Modules.Position, Backed, Image, Sane, Kept, Grows, CanGrow, KernelHeap.OnlyAdded,
         InUse, Allocated, Sizes, Remembers, PagesFor, Confined, F.Paged;
    ghost var s, t, l, m, a := k.alloc.State(), k.heap.pager.State(), k.heap.ledger, k.alloc.mem, AccountOf(k);
    GoodOf(k.alloc);
    k.heap.Still(0, 0);
    if call.Malloc? {
      r := k.Kmalloc(call.req);
    } else {
      r := k.Kcalloc(call.count, call.size);
    }
    if r == Panic { return; }
    k.heap.Still(0, 0);
    StillRunning(t, l, k, start, end, mods);
    CallKeeps(a, call, books);
    KeptIsRemembered(s, m, k.alloc.mem, books, s.brk, k.alloc.brk);
    if call.Malloc? {
      NewIsRemembered(k.alloc.mem, books, r.p, Fitted([], call.req));
    } else {
      NewIsRemembered(k.alloc.mem, books, r.p, seq(Total(call.count, call.size), _ => Some(0)));
    }
  }

  // kfree.
  method Release(k: KernelMemory, ptr: int, ghost books: Books, ghost start: int, ghost end: int, ghost mods: seq<B.Module>)
    requires Serving(k, start, end, mods, books) && ModulesFit(mods) && Proper(Call.Free(ptr), books)
    modifies k.alloc, k.heap, k.heap.pager`phys, k.heap.pager.bitmap.bits
    ensures Serving(k, start, end, mods, books - {ptr})
    ensures AccountOf(k) == old(AfterCall(AccountOf(k), Call.Free(ptr), books)) && k.Traced()
  {
    hide F.Good, KernelHeap.Room, AfterFree, Agrees, U.Protected, Modules.AllMapped, Modules.AllApart, C.High,
         F.Undisturbed, Modules.Position, Backed, Image, Sane, Kept, KeptBut, InUse, Allocated, PayloadOf,
         Sizes, Remembers, Good, Where, AfterCall, M.Walk, P.Used, Sound, NoneEmpty, Kernel.Released, Confined, F.Paged;
    ghost var s, t, l, m, a := k.alloc.State(), k.heap.pager.State(), k.heap.ledger, k.alloc.mem, AccountOf(k);
    GoodOf(k.alloc);
    k.heap.Still(0, 0);
    SoundOfSane(s);
    ghost var i, n := -1, 0;
    if ptr != 0 {
      HasPlace(a, books, ptr);
      i, n := Where(s.layout, ptr).0, Where(s.layout, ptr).1;
    }
    FreeIs(a, books, ptr, i, n);
    var r := k.Kfree(ptr, i, n);
    k.heap.Still(0, 0);
    StillRunning(t, l, k, start, end, mods);
    CallKeeps(a, Call.Free(ptr), books);
    if ptr != 0 {
      OthersAreRemembered(s, m, k.alloc.mem, books, s.brk, k.alloc.brk, i, n, ptr);
    } else {
      NullNotHeld(a, books);
      assert books - {ptr} == books;
    }
  }

  lemma FreeIs(a: Account, books: Books, ptr: int, i: int, k: int)
    requires InOrder(a, books) && Proper(Call.Free(ptr), books) && (ptr != 0 ==> Points(a.heap.layout, i, k, ptr))
    ensures var r := AfterCall(a, Call.Free(ptr), books);
      if ptr == 0 then r == a
      else r == Account(AfterFree(a.heap, i, k), a.frames + Kernel.Released(a.heap.layout[i]), a.table)
  {
    hide PayloadOf, AfterFree, Kernel.Released;
    if ptr != 0 { OnlyPlace(a.heap.layout, ptr, i, k); }
  }

  // krealloc.
  method Resize(k: KernelMemory, ptr: int, size: int, ghost books: Books, ghost start: int, ghost end: int,
                ghost mods: seq<B.Module>)
    returns (r: Outcome)
    requires Serving(k, start, end, mods, books) && ModulesFit(mods) && Proper(Realloc(ptr, size), books)
    modifies k.alloc, k.heap, k.heap.pager`phys, k.heap.pager`placement, k.heap.pager.bitmap.bits
    ensures r == Panic <==> old(Fails(AccountOf(k), Realloc(ptr, size), books))
    ensures r.Ret? ==>
      && r.p == old(Result(AccountOf(k), Realloc(ptr, size), books))
      && Serving(k, start, end, mods, Noted(books, Realloc(ptr, size), r.p))
      && AccountOf(k) == old(AfterCall(AccountOf(k), Realloc(ptr, size), books)) && k.Traced()
  {
    hide F.Good, KernelHeap.Room, AfterMalloc, AfterFree, AfterMove, Search.Returned, Resized, Agrees, U.Protected,
         Modules.AllMapped, Modules.AllApart, C.High, F.Undisturbed, Modules.Position, Backed, Image, Sane, Kept,
         KeptBut, MovedBytes, Grows, CanGrow, InUse, Allocated, PayloadOf, Sizes, Remembers, Where, AfterCall,
         M.Walk, P.Used, Sound, NoneEmpty, Kernel.Released, PagesFor, Confined, F.Paged;
    ghost var s, t, l, m, a := k.alloc.State(), k.heap.pager.State(), k.heap.ledger, k.alloc.mem, AccountOf(k);
    ghost var call := Realloc(ptr, size);
    GoodOf(k.alloc);
    k.heap.Still(0, 0);
    SoundOfSane(s);
    NullNotHeld(a, books);
    ghost var i, n := -1, 0;
    if ptr != 0 {
      HasPlace(a, books, ptr);
      i, n := Where(s.layout, ptr).0, Where(s.layout, ptr).1;
    }
    r := k.Krealloc(ptr, size, i, n);
    if r == Panic { return; }
    k.heap.Still(0, 0);
    StillRunning(t, l, k, start, end, mods);
    ReallocIs(a, books, ptr, size, i, n);
    CallKeeps(a, call, books);
    if ptr == 0 {
      assert books - {ptr} == books;
      if size != 0 {
        KeptIsRemembered(s, m, k.alloc.mem, books, s.brk, k.alloc.brk);
        NewIsRemembered(k.alloc.mem, books, r.p, Fitted([], size));
      }
    } else if !Moves(ptr, size, books) && size != 0 {
      KeptIsRemembered(s, m, k.alloc.mem, books, s.brk, k.alloc.brk);
      CutIsRemembered(k.alloc.mem, books, ptr, size);
    } else {
      OthersAreRemembered(s, m, k.alloc.mem, books, s.brk, k.alloc.brk, i, n, ptr);
      if size != 0 { MovedIsRemembered(m, k.alloc.mem, books, ptr, r.p, size); }
    }
  }

  lemma ReallocIs(a: Account, books: Books, ptr: int, size: int, i: int, k: int)
    requires InOrder(a, books) && Proper(Realloc(ptr, size), books) && !Fails(a, Realloc(ptr, size), books)
    requires if ptr == 0 then !Points(a.heap.layout, i, k, 0) else Points(a.heap.layout, i, k, ptr)
    ensures BetListed(a.heap.layout, a.heap.bet)
    ensures
      var r := AfterCall(a, Realloc(ptr, size), books);
      var s, moves := a.heap, Moves(ptr, size, books);
      var asked := if moves && Grows(s, size) then Wanted(a, size) else 0;
      && r.table == (a.table || (moves && Grows(s, size)))
      && if ptr == 0 then
          r.heap == (if size == 0 then s else AfterMalloc(s, size)) && r.frames == a.frames - asked
        else if size == 0 then
          r.heap == AfterFree(s, i, k) && r.frames == a.frames + Kernel.Released(s.layout[i])
        else if !moves then
          r.heap == s.(layout := Resized(s.layout, i, k, size)) && r.frames == a.frames
        else
          && r.heap == AfterMove(s, size, i, k) && 0 <= i < |AfterMalloc(s, size).layout|
          && r.frames == a.frames - asked + Kernel.Released(AfterMalloc(s, size).layout[i])
  {
    hide PayloadOf, AfterFree, AfterMalloc, Kernel.Released, Resized, Grows, CanGrow, PagesFor, Agrees, Sizes;
    BetOfGood(a.heap);
    NullNotHeld(a, books);
    if ptr != 0 {
      OnlyPlace(a.heap.layout, ptr, i, k);
      if Moves(ptr, size, books) {
        MallocKeepsMinors(a.heap, size, i, k);
        MallocKeepsGood(a.heap, size);
        OnlyPlace(AfterMalloc(a.heap, size).layout, ptr, i, MovedTo(a.heap, size, i, k));
      }
    }
  }

  // A caller's own store.
  method Put(k: KernelMemory, ptr: int, at: int, b: Byte, ghost books: Books, ghost start: int, ghost end: int,
             ghost mods: seq<B.Module>)
    requires Serving(k, start, end, mods, books) && Proper(Write(ptr, at, b), books)
    modifies k.alloc`mem
    ensures Serving(k, start, end, mods, Noted(books, Write(ptr, at, b), 0)) && AccountOf(k) == old(AccountOf(k)) && k.Traced()
  {
    hide F.Good, KernelHeap.Room, Agrees, U.Protected, Modules.AllMapped, Modules.AllApart, C.High, Backed, Image, Sane,
         InUse, Allocated, PayloadOf, Sizes, Remembers, Where, M.Walk, P.Used, Sound, NoneEmpty, Confined, F.Paged;
    ghost var a, m := AccountOf(k), k.alloc.mem;
    GoodOf(k.alloc);
    HasPlace(a, books, ptr);
    ghost var i, n := Where(k.alloc.layout, ptr).0, Where(k.alloc.layout, ptr).1;
    k.Store(ptr, at, b, i, n);
    StoreIsRemembered(k.alloc.State(), m, books, i, n, ptr, at, b);
    CallKeeps(a, Write(ptr, at, b), books);
  }

  /** Any one call: it panics exactly if memory runs out, and otherwise leaves and returns
      what AfterCall and Result say. */
  method Answer(k: KernelMemory, call: Call, ghost books: Books, ghost start: int, ghost end: int, ghost mods: seq<B.Module>)
    returns (r: Outcome)
    requires Serving(k, start, end, mods, books) && ModulesFit(mods) && Proper(call, books)
    modifies k.alloc, k.heap, k.heap.pager`phys, k.heap.pager`placement, k.heap.pager.bitmap.bits
    ensures r == Panic <==> old(Fails(AccountOf(k), call, books))
    ensures r.Ret? ==>
      && r.p == old(Result(AccountOf(k), call, books)) && Serving(k, start, end, mods, Noted(books, call, r.p))
      && AccountOf(k) == old(AfterCall(AccountOf(k), call, books)) && k.Traced()
  {
    hide U.Running, InOrder, Remembers, AccountOf, Confined, F.Paged;
    r := Ret(0);
    match call {
      case Free(ptr) => Release(k, ptr, books, start, end, mods);
      case Realloc(ptr, size) => r := Resize(k, ptr, size, books, start, end, mods);
      case Write(ptr, at, b) => Put(k, ptr, at, b, books, start, end, mods);
      case _ => r := Allocate(k, call, books, start, end, mods);
    }
  }

  // ----------------------------------------------------------- over whole runs

  // No page that was handed out has a frame of the kernel, of a module, or frame 0.
  ghost predicate FramesKept(l: F.Ledger, start: int, end: int, mods: seq<B.Module>) {
    && U.NotHandedOut(l, 0, 1) && U.NotHandedOut(l, start, end)
    && forall i :: 0 <= i < |mods| ==> U.NotHandedOut(l, mods[i].start, mods[i].end)
  }

  /** Any sequence of calls takes the one course CourseOf says: it stops only at a call that
      is not proper, or for which there is not the memory.  Until then what is live is what
      the callers have and holds what they wrote, the modules and the console stay mapped,
      and their frames and the kernel's are never handed out. */
  method Serve(k: KernelMemory, calls: seq<Call>, books0: Books, ghost start: int, ghost end: int,
               ghost mods: seq<B.Module>)
    returns (how: End, results: seq<int>, books: Books)
    requires Serving(k, start, end, mods, books0) && ModulesFit(mods)
    modifies k.alloc, k.heap, k.heap.pager`phys, k.heap.pager`placement, k.heap.pager.bitmap.bits
    ensures var c := CourseOf(old(AccountOf(k)), books0, calls);
      && how == c.end && results == c.results && books == c.books
      && (how != OutOfMemory ==>
            Serving(k, start, end, mods, books) && AccountOf(k) == c.account && FramesKept(k.heap.ledger, start, end, mods))
  {
    hide *;
    ServingIs(k, start, end, mods, books0);
    ghost var a0 := AccountOf(k);
    var done := 0;
    results, books := [], books0;
    assert calls[0..] == calls;
    CourseStarts(a0, books, calls);
    while done < |calls|
      invariant 0 <= done <= |calls| && Serving(k, start, end, mods, books) && k.Valid() && InOrder(AccountOf(k), books)
      invariant Leads(CourseOf(a0, books0, calls), results, CourseOf(AccountOf(k), books, calls[done..]))
    {
      var call := calls[done];
      ghost var a := AccountOf(k);
      CourseStep(a, books, calls, done);
      if !Proper(call, books) {
        how := Misused;
        CourseEnds(CourseOf(a0, books0, calls), results, CourseOf(a, books, calls[done..]));
        NothingLost(k, start, end, mods, books);
        return;
      }
      var r := Answer(k, call, books, start, end, mods);
      if r == Panic {
        how := OutOfMemory;
        CourseEnds(CourseOf(a0, books0, calls), results, CourseOf(a, books, calls[done..]));
        return;
      }
      ghost var was := books;
      results, books := results + [r.p], Noted(books, call, r.p);
      done := done + 1;
      ServingIs(k, start, end, mods, books);
      CourseGoesOn(CourseOf(a0, books0, calls), results[..|results| - 1], CourseOf(a, was, calls[done - 1..]), r.p,
                   CourseOf(AccountOf(k), books, calls[done..]));
    }
    how := Finished;
    CourseStops(AccountOf(k), books);
    CourseEnds(CourseOf(a0, books0, calls), results, CourseOf(AccountOf(k), books, calls[done..]));
    NothingLost(k, start, end, mods, books);
  }

  // The course c is that of the calls done, with the results so far, and then d.
  ghost predicate Leads(c: Course, results: seq<int>, d: Course) {
    c == d.(results := results + d.results)
  }

  lemma CourseStep(a: Account, books: Books, calls: seq<Call>, done: nat)
    requires InOrder(a, books) && done < |calls|
    ensures var d := CourseOf(a, books, calls[done..]); var call := calls[done];
      if !Proper(call, books) then d == Course(Misused, [], books, a)
      else if Fails(a, call, books) then d == Course(OutOfMemory, [], books, a)
      else
        var p, b := Result(a, call, books), AfterCall(a, call, books);
        && InOrder(b, Noted(books, call, p))
        && Leads(d, [p], CourseOf(b, Noted(books, call, p), calls[done + 1..]))
  {
    hide InOrder, Proper, Noted, AfterCall, Result, Fails;
    assert calls[done..][1..] == calls[done + 1..];
    if Proper(calls[done], books) && !Fails(a, calls[done], books) { CallKeeps(a, calls[done], books); }
  }

  lemma CourseStarts(a: Account, books: Books, calls: seq<Call>)
    requires InOrder(a, books)
    ensures Leads(CourseOf(a, books, calls), [], CourseOf(a, books, calls))
  {
  }

  lemma CourseGoesOn(c: Course, results: seq<int>, d: Course, p: int, e: Course)
    requires Leads(c, results, d) && Leads(d, [p], e)
    ensures Leads(c, results + [p], e)
  {
  }

  lemma CourseStops(a: Account, books: Books)
    requires InOrder(a, books)
    ensures CourseOf(a, books, []) == Course(Finished, [], books, a)
  {
  }

  lemma CourseEnds(c: Course, results: seq<int>, d: Course)
    requires Leads(c, results, d) && d.results == []
    ensures c == d.(results := results)
  {
  }

  lemma ServingIs(k: KernelMemory, start: int, end: int, mods: seq<B.Module>, books: Books)
    requires Serving(k, start, end, mods, books)
    ensures k.Valid() && InOrder(AccountOf(k), books)
  {
  }

  lemma NothingLost(k: KernelMemory, start: int, end: int, mods: seq<B.Module>, books: Books)
    requires Serving(k, start, end, mods, books)
    ensures FramesKept(k.heap.ledger, start, end, mods)
  {
    hide F.Good, U.Protected, U.NotHandedOut, Modules.AllMapped, Modules.AllApart, C.High;
    U.NobodyHas(k.heap.pager.State(), k.heap.pager.root, k.heap.ledger, start, end, mods);
  }

  // What the kernel has after module_table_init: the table.
  function TableBooks(mods: seq<B.Module>): Books {
    if mods == [] then map[]
    else var n := |mods| * U.MODULE_SIZE; map[Search.Returned(INITIAL, n) := Fitted([], n)]
  }

  lemma TableNoted(a: Account, m: seq<Byte>, mods: seq<B.Module>)
    requires a.heap == U.AfterTable(mods) && a.heap.brk <= KHEAP_END
    ensures InOrder(a, TableBooks(mods)) && Remembers(m, TableBooks(mods))
    ensures a.heap.brk == KHEAP_START + U.TablePages(mods) * PAGE_SIZE
  {
    assert Agrees(INITIAL.layout, map[]);
    if mods != [] {
      var n := |mods| * U.MODULE_SIZE;
      U.FirstRequest(n);
      GrantedNoted(Account(INITIAL, PagesFor(n) + 1, false), map[], n);
      assert Sizes(TableBooks(mods)) == map[Search.Returned(INITIAL, n) := n];
    }
  }

  // The frames the kernel itself needs up to there.
  function Needed(mods: seq<B.Module>): int
    requires forall i :: 0 <= i < |mods| ==> B.ModuleFits(mods[i])
  {
    2 + U.TablePages(mods) + Modules.TablesFor(mods)
  }

  /** From the boot code's state, through pmm_init, tty_remap and module_table_init, and over
      any sequence of calls after them.  With the frames and the kernel heap for the modules
      it gets to the calls, and with those for the calls as well to their end. */
  method BootAndServe(p: Paging.Pager, mem: seq<Byte>, memSize: int, map_: seq<B.Region>, start: int, end: int,
                      mods: seq<B.Module>, calls: seq<Call>, ghost table: int)
    returns (ok: bool, k: KernelMemory?, how: End, results: seq<int>, books: Books, ghost a: Account)
    requires 0 <= memSize < WORD_RANGE && p.bitmap.bits.Length == P.BITMAP_WORDS
    requires forall i :: 0 <= i < P.BITMAP_WORDS ==> p.bitmap.bits[i] == 0
    requires forall i :: 0 <= i < |map_| && map_[i].available ==> B.SpanFits(B.Low32(map_[i].addr), B.Low32(map_[i].addr))
    requires B.Booted(p.phys, p.root, table, start, end) && U.DeviceKept(map_) && |mem| == MEMORY_SIZE
    requires ModulesFit(mods)
    requires B.PlacementStart(end) + PAGE_SIZE * (2 + Modules.TablesFor(mods)) <= F.PLACEMENT_END
    modifies p, p.bitmap, p.bitmap.bits
    ensures (&& B.WordCount(memSize) < P.BITMAP_WORDS && KernelHeap.Fits(0, U.TablePages(mods))
             && |U.BootFree(memSize, map_, start, end, mods)| >= Needed(mods)) ==> ok
    ensures ok ==>
      && a.heap == U.AfterTable(mods) && a.frames >= |U.BootFree(memSize, map_, start, end, mods)| - Needed(mods)
      && InOrder(a, TableBooks(mods)) && var c := CourseOf(a, TableBooks(mods), calls);
      && how == c.end && results == c.results && books == c.books
      && (how != OutOfMemory ==>
            && k != null && k.heap.pager == p && Serving(k, start, end, mods, books) && AccountOf(k) == c.account
            && FramesKept(k.heap.ledger, start, end, mods))
    ensures (&& B.WordCount(memSize) < P.BITMAP_WORDS && KernelHeap.Fits(0, U.TablePages(mods) + AsksAll(calls))
             && |U.BootFree(memSize, map_, start, end, mods)| >= Needed(mods) + 1 + AsksAll(calls)) ==>
      ok && how != OutOfMemory
  {
    hide Serving, InOrder, Remembers, B.Booted, U.DeviceKept, FramesKept, U.AfterTable, TableBooks, Modules.Position,
         U.BootFree, CourseOf, U.Running, Modules.TablesFor, U.TablePages;
    how, results, books, a := Finished, [], map[], Account(INITIAL, 0, false);
    var loaded;
    AsksSome(calls);
    ok, k, loaded := U.Start(p, mem, memSize, map_, start, end, mods, table);
    if !ok { return; }
    RunningIs(k, start, end, mods);
    a, books := AccountOf(k), TableBooks(mods);
    TableNoted(a, k.alloc.mem, mods);
    ServingFrom(k, start, end, mods, books);
    how, results, books := Serve(k, calls, books, start, end, mods);
    if Enough(a, AsksAll(calls)) { LastsWhen(a, TableBooks(mods), calls); }
  }

  lemma RunningIs(k: KernelMemory, start: int, end: int, mods: seq<B.Module>)
    requires U.Running(k, start, end, mods)
    ensures k.Valid() && k.alloc.brk <= KHEAP_END
  {
    GoodOf(k.alloc);
  }

  lemma ServingFrom(k: KernelMemory, start: int, end: int, mods: seq<B.Module>, books: Books)
    requires U.Running(k, start, end, mods) && InOrder(AccountOf(k), books) && Remembers(k.alloc.mem, books)
    ensures Serving(k, start, end, mods, books)
  {
  }
}
