/** The allocator in the one physical memory: each of its calls is a run of the steps that
    acquire pages, store to the heap, and give pages back. */
module Physical {
  import opened Machine
  import opened Memory
  import opened Mmu
  import opened Pages
  import opened Frames
  import opened Separation
  import Layout
  import Allocator
  import Kernel
  import Service
  import Accounts
  import Boot
  import Search

  function AsStep(p: PageStep): Step {
    match p
    case Take(va) => Acquire(va)
    case Give(va) => Release(va)
  }

  function AsSteps(ps: seq<PageStep>): (steps: seq<Step>)
    ensures |steps| == |ps|
  {
    seq(|ps|, i requires 0 <= i < |ps| => AsStep(ps[i]))
  }

  // The steps lead from t and v to u and w.
  ghost predicate Leads(t: PageState, v: View, root: int, steps: seq<Step>, u: PageState, w: View) {
    Matches(t, v, root) && AllPossible(t, v, root, steps) && Run(t, v, root, steps) == (u, w)
  }

  lemma NoStep(t: PageState, v: View, root: int)
    requires Matches(t, v, root)
    ensures Leads(t, v, root, [], t, v)
  {
  }

  lemma OneStep(t: PageState, v: View, root: int, step: Step)
    requires Matches(t, v, root) && Possible(v, root, step)
    ensures var n := Next(t, v, root, step); Leads(t, v, root, [step], n.0, n.1)
  {
    hide Matches, Possible, Real, Flat, Found;
    var n := Next(t, v, root, step);
    assert AllPossible(n.0, n.1, root, []) && Run(n.0, n.1, root, []) == n;
    assert [step][1..] == [];
  }

  lemma {:induction false} LeadsOn(t: PageState, v: View, root: int, a: seq<Step>, u: PageState, w: View, b: seq<Step>,
                                   x: PageState, y: View)
    requires Leads(t, v, root, a, u, w) && Leads(u, w, root, b, x, y)
    ensures Leads(t, v, root, a + b, x, y)
    decreases |a|
  {
    hide Next, Matches, Possible;
    if a == [] {
      assert a + b == b;
    } else {
      var n := Next(t, v, root, a[0]);
      LeadsOn(n.0, n.1, root, a[1..], u, w, b, x, y);
      assert (a + b)[1..] == a[1..] + b;
    }
  }

  // ------------------------------------------------------------------- pages

  /** The steps of the pager are steps of the machine.  Giving pages back leaves the flat
      memory as it is. */
  lemma {:induction false} PageRun(t: PageState, v: View, root: int, ps: seq<PageStep>, r: PageState, k: Ledger)
    returns (u: PageState, w: View)
    requires Matches(t, v, root) && PageSteps(v.pages, v.ledger, ps, r, k, root)
    ensures Leads(t, v, root, AsSteps(ps), u, w) && w.pages == r && w.ledger == k
    ensures (forall i :: 0 <= i < |ps| ==> ps[i].Give?) ==> w.mem == v.mem
    decreases |ps|
  {
    hide Matches, PageStepped, Leads;
    if ps == [] {
      NoStep(t, v, root);
      assert AsSteps(ps) == [];
      u, w := t, v;
    } else {
      var n := |ps| - 1;
      var s1, l1 :| PageSteps(v.pages, v.ledger, ps[..n], s1, l1, root) && PageStepped(s1, l1, ps[n], r, k, root);
      var u1, w1 := PageRun(t, v, root, ps[..n], s1, l1);
      u, w := PageMore(t, v, root, ps[..n], u1, w1, ps[n], r, k);
      assert ps == ps[..n] + [ps[n]];
    }
  }

  lemma PageMore(t: PageState, v: View, root: int, ps: seq<PageStep>, u1: PageState, w1: View, p: PageStep,
                 r: PageState, k: Ledger)
    returns (u: PageState, w: View)
    requires Leads(t, v, root, AsSteps(ps), u1, w1) && PageStepped(w1.pages, w1.ledger, p, r, k, root)
    ensures Leads(t, v, root, AsSteps(ps + [p]), u, w) && w.pages == r && w.ledger == k
    ensures p.Give? ==> w.mem == w1.mem
  {
    hide PageStepped, Possible, Real, Flat, Found;
    assert Matches(u1, w1, root);
    OnePage(u1, w1, root, p, r, k);
    var next := Next(u1, w1, root, AsStep(p));
    u, w := next.0, next.1;
    OneStep(u1, w1, root, AsStep(p));
    LeadsOn(t, v, root, AsSteps(ps), u1, w1, [AsStep(p)], u, w);
    assert AsSteps(ps + [p]) == AsSteps(ps) + [AsStep(p)];
  }

  lemma OnePage(t: PageState, v: View, root: int, p: PageStep, r: PageState, k: Ledger)
    requires Matches(t, v, root) && PageStepped(v.pages, v.ledger, p, r, k, root)
    ensures Possible(v, root, AsStep(p))
    ensures var w := Next(t, v, root, AsStep(p)).1;
      w.pages == r && w.ledger == k && (p.Give? ==> w.mem == v.mem)
  {
    hide Good, Ready, CanMap, AfterMapNew, AfterUnmapFree, WithNewPage, Alike, Shows, Put, Real;
  }

  // ------------------------------------------------------------------ stores

  // What is stored below x for the flat memory to become m.
  ghost predicate Becomes(v: View, m: seq<Byte>) {
    |m| == |v.mem| == MEMORY_SIZE && forall x :: 0 <= x < MEMORY_SIZE && m[x] != v.mem[x] ==> HeapPage(v.ledger, PageOf(x))
  }

  /** Any change to the pages of the heap is a run of stores. */
  lemma {:induction false} StoreRun(t: PageState, v: View, root: int, m: seq<Byte>, n: nat)
    returns (steps: seq<Step>, u: PageState)
    requires Matches(t, v, root) && Becomes(v, m) && n <= MEMORY_SIZE
    requires forall x :: n <= x < MEMORY_SIZE ==> m[x] == v.mem[x]
    ensures Leads(t, v, root, steps, u, v.(mem := m))
    decreases n
  {
    hide Matches, PageOf;
    if n == 0 {
      assert m == v.mem;
      NoStep(t, v, root);
      steps, u := [], t;
    } else if m[n - 1] == v.mem[n - 1] {
      steps, u := StoreRun(t, v, root, m, n - 1);
    } else {
      var step := Store(n - 1, m[n - 1]);
      var next := Next(t, v, root, step);
      StoreIs(t, v, root, n - 1, m[n - 1]);
      OneStep(t, v, root, step);
      var more;
      more, u := StoreRun(next.0, next.1, root, m, n - 1);
      LeadsOn(t, v, root, [step], next.0, next.1, more, u, v.(mem := m));
      steps := [step] + more;
    }
  }

  lemma StoreIs(t: PageState, v: View, root: int, x: int, b: Byte)
    requires Matches(t, v, root) && HeapPage(v.ledger, PageOf(x)) && 0 <= x < MEMORY_SIZE
    ensures Possible(v, root, Store(x, b)) && |v.mem| == MEMORY_SIZE
    ensures Next(t, v, root, Store(x, b)).1 == v.(mem := v.mem[x := b])
  {
    hide Good, Alike, Shows, Real;
  }

  // ------------------------------------------------------------------- calls

  lemma {:induction false} TakesHave(s: PageState, l: Ledger, lo: int, n: nat, t: PageState, m: Ledger, root: int)
    requires PageSteps(s, l, Takes(lo, n), t, m, root)
    ensures forall va :: HeapPage(l, va) ==> HeapPage(m, va)
    ensures forall i :: 0 <= i < n ==> HeapPage(m, lo + i * PAGE_SIZE)
  {
    hide PageStepped;
    if n > 0 {
      TakesMore(lo, n - 1);
      var last := Takes(lo, n)[n - 1];
      assert Takes(lo, n)[..n - 1] == Takes(lo, n - 1);
      var s1, l1 :| PageSteps(s, l, Takes(lo, n - 1), s1, l1, root) && PageStepped(s1, l1, last, t, m, root);
      TakesHave(s, l, lo, n - 1, s1, l1, root);
      TakeHas(s1, l1, lo + (n - 1) * PAGE_SIZE, t, m, root);
    }
  }

  lemma TakeHas(s: PageState, l: Ledger, va: int, t: PageState, m: Ledger, root: int)
    requires PageStepped(s, l, Take(va), t, m, root)
    ensures HeapPage(m, va) && forall wa :: HeapPage(l, wa) ==> HeapPage(m, wa)
  {
    hide Good, Ready, CanMap, AfterMapNew;
  }

  // The pages acquired next are found to hold what the flat memory has there: it may have
  // anything, nothing being said of it where there is no page.
  ghost predicate Foretold(t: PageState, v: View, root: int, lo: int) {
    forall n: nat, u, w :: Leads(t, v, root, AsSteps(Takes(lo, n)), u, w) ==> w.mem == v.mem
  }

  // The same in the pages of the heap.
  ghost predicate SameHeap(l: Ledger, m: seq<Byte>, m': seq<Byte>) {
    |m| == |m'| == MEMORY_SIZE && forall x :: 0 <= x < MEMORY_SIZE && HeapPage(l, PageOf(x)) ==> m'[x] == m[x]
  }

  /** So that costs nothing: what is found can always be foretold, and the heap is the same. */
  lemma {:induction false} Foretelling(t: PageState, v: View, root: int, lo: int, left: nat) returns (m: seq<Byte>)
    requires Matches(t, v, root) && lo % PAGE_SIZE == 0 && TABLE_WINDOW <= lo + left * PAGE_SIZE
    ensures SameHeap(v.ledger, v.mem, m) && Matches(t, v.(mem := m), root) && Foretold(t, v.(mem := m), root, lo)
    decreases left
  {
    hide Matches, Possible, Real, Flat, Found, Leads;
    if AcquirePossible(t, v, root, lo) {
      assert left > 0 by { BelowWindow(t, v, root, lo); }
      var next := Next(t, v, root, Acquire(lo));
      m := Foretelling(next.0, next.1, root, lo + PAGE_SIZE, left - 1);
      AcquireForetold(t, v, root, lo, m);
    } else {
      m := v.mem;
      NothingToFind(t, v, root, lo);
    }
  }

  ghost predicate AcquirePossible(t: PageState, v: View, root: int, lo: int)
    requires Matches(t, v, root)
  {
    Possible(v, root, Acquire(lo))
  }

  lemma BelowWindow(t: PageState, v: View, root: int, lo: int)
    requires Matches(t, v, root) && AcquirePossible(t, v, root, lo)
    ensures lo < TABLE_WINDOW
  {
    hide Good, CanMap;
  }

  lemma NothingToFind(t: PageState, v: View, root: int, lo: int)
    requires Matches(t, v, root) && !AcquirePossible(t, v, root, lo)
    ensures SameHeap(v.ledger, v.mem, v.mem) && v.(mem := v.mem) == v && Foretold(t, v, root, lo)
  {
    hide Good, Possible, Alike, Shows;
    forall n: nat, u, w | Leads(t, v, root, AsSteps(Takes(lo, n)), u, w) ensures w.mem == v.mem {
      if n > 0 { FirstTake(lo, n); }
    }
  }

  lemma FirstTake(lo: int, n: nat)
    requires n > 0
    ensures var steps := AsSteps(Takes(lo, n));
      steps != [] && steps[0] == Acquire(lo) && steps[1..] == AsSteps(Takes(lo + PAGE_SIZE, n - 1))
  {
  }

  lemma AcquireForetold(t: PageState, v: View, root: int, lo: int, m: seq<Byte>)
    requires Matches(t, v, root) && AcquirePossible(t, v, root, lo)
    requires var next := Next(t, v, root, Acquire(lo));
      && SameHeap(next.1.ledger, next.1.mem, m) && Matches(next.0, next.1.(mem := m), root)
      && Foretold(next.0, next.1.(mem := m), root, lo + PAGE_SIZE)
    ensures SameHeap(v.ledger, v.mem, m) && Matches(t, v.(mem := m), root) && Foretold(t, v.(mem := m), root, lo)
  {
    hide Matches, Possible, Next, SameHeap;
    var next, v' := Next(t, v, root, Acquire(lo)), v.(mem := m);
    AcquireKeepsHeap(t, v, root, lo, m);
    forall n: nat, u, w | Leads(t, v', root, AsSteps(Takes(lo, n)), u, w) ensures w.mem == m {
      if n > 0 {
        FirstTake(lo, n);
        assert Leads(next.0, next.1.(mem := m), root, AsSteps(Takes(lo + PAGE_SIZE, n - 1)), u, w);
      }
    }
  }

  lemma SameHeapMatches(t: PageState, v: View, root: int, m: seq<Byte>)
    requires Matches(t, v, root) && SameHeap(v.ledger, v.mem, m)
    ensures Matches(t, v.(mem := m), root)
  {
    hide Good, ByteIn;
    forall va | HeapPage(v.ledger, va) ensures PageShows(t, v.ledger, va, m) {
      assert PageShows(t, v.ledger, va, v.mem);
      HeapFrame(v.pages, root, v.ledger, va);
      forall o | 0 <= o < PAGE_SIZE ensures m[va + o] == ByteIn(t.ph, v.ledger.pages[va], o) { InPage(va, o); }
    }
  }

  // Where a page is acquired there was none, and then there is.
  lemma AcquiredPage(t: PageState, v: View, root: int, lo: int)
    requires Matches(t, v, root) && AcquirePossible(t, v, root, lo)
    ensures Good(t, root, v.ledger) && Possible(View(t, v.ledger, []), root, Acquire(lo)) && UpperPage(lo)
    ensures |v.mem| == MEMORY_SIZE
    ensures var w := Next(t, v, root, Acquire(lo)).1; var found := Found(t, root, v.ledger, Acquire(lo));
      && w.mem == Put(v.mem, lo, found) && HeapPage(w.ledger, lo) && lo !in v.ledger.pages
      && forall va :: HeapPage(v.ledger, va) ==> HeapPage(w.ledger, va)
  {
    hide Good, Alike, Shows, Put, Found, CanMap, AfterMapNew, Ready, Real;
    StepMatches(t, v, root, Acquire(lo));
    NowhereBefore(v.pages, root, v.ledger, lo);
  }

  lemma NowhereBefore(s: PageState, root: int, l: Ledger, va: int)
    requires Good(s, root, l) && Ready(s, root, va)
    ensures va !in l.pages && UpperPage(va)
  {
    hide Good, Walk;
    GoodIsSane(s, root, l);
    VacantIsUnowned(s, root, l, va);
  }

  lemma AcquireKeepsHeap(t: PageState, v: View, root: int, lo: int, m: seq<Byte>)
    requires Matches(t, v, root) && AcquirePossible(t, v, root, lo)
    requires var next := Next(t, v, root, Acquire(lo)); SameHeap(next.1.ledger, next.1.mem, m)
    ensures SameHeap(v.ledger, v.mem, m) && Matches(t, v.(mem := m), root) && Possible(v.(mem := m), root, Acquire(lo))
    ensures Next(t, v.(mem := m), root, Acquire(lo)) ==
      (Next(t, v, root, Acquire(lo)).0, Next(t, v, root, Acquire(lo)).1.(mem := m))
  {
    hide Good, Alike, Shows, Found, CanMap, AfterMapNew, Ready, Real, WithNewPage;
    AcquiredPage(t, v, root, lo);
    var w, found := Next(t, v, root, Acquire(lo)).1, Found(t, root, v.ledger, Acquire(lo));
    forall x | 0 <= x < MEMORY_SIZE && HeapPage(v.ledger, PageOf(x)) ensures m[x] == v.mem[x] {
      if lo <= x < lo + PAGE_SIZE { InPage(lo, x - lo); }
    }
    SameHeapMatches(t, v, root, m);
    forall o | 0 <= o < PAGE_SIZE ensures m[lo + o] == found[o] { InPage(lo, o); }
    assert Put(m, lo, found) == m;
    AcquiredPage(t, v.(mem := m), root, lo);
  }

  // A byte that is in a major, or behind the heap as far as it has grown, is in a page of it.
  lemma StoredInHeap(layout: seq<Layout.Block>, s: PageState, l: Ledger, lo: int, n: nat, t: PageState, m: Ledger, root: int,
                     x: int)
    requires PageSteps(s, l, Takes(lo, n), t, m, root) && Layout.Sound(layout) && Kernel.Backed(layout, l)
    requires lo % PAGE_SIZE == 0 && (forall i :: 0 <= i < |layout| ==> PLACEMENT_END <= layout[i].base)
    requires Allocator.InBlock(layout, x) || lo <= x < lo + n * PAGE_SIZE
    ensures HeapPage(m, PageOf(x))
  {
    hide PageSteps;
    TakesHave(s, l, lo, n, t, m, root);
    if Allocator.InBlock(layout, x) {
      var i :| 0 <= i < |layout| && layout[i].base <= x && x + 1 <= Layout.Limit(layout[i]);
      assert Layout.WellPlaced(layout[i]);
      Kernel.PageInMajor(layout[i], x);
      assert Kernel.PageOfMajor(layout, PageOf(x));
    } else {
      assert PageOf(x) == lo + (x - lo) / PAGE_SIZE * PAGE_SIZE;
    }
  }

  /** What acquires pages, then stores inside the majors and the new pages, and then gives
      pages back, is a run of the machine with everything in one memory. */
  lemma CallIsRun(t: PageState, v: View, root: int, layout: seq<Layout.Block>, lo: int, n: int, r: PageState, k: Ledger,
                  m: seq<Byte>)
    returns (steps: seq<Step>, u: PageState)
    requires Matches(t, v, root) && Foretold(t, v, root, lo) && lo % PAGE_SIZE == 0
    requires Layout.Sound(layout) && Kernel.Backed(layout, v.ledger)
    requires forall i :: 0 <= i < |layout| ==> PLACEMENT_END <= layout[i].base
    requires Paged(v.pages, v.ledger, lo, n, r, k, root)
    requires |m| == MEMORY_SIZE && Allocator.Confined(v.mem, m, layout, lo, lo + n * PAGE_SIZE)
    ensures Leads(t, v, root, steps, u, View(r, k, m))
  {
    hide Matches, Foretold, PageSteps, Takes, Gives, PageStepped, Leads;
    var s1, l1 :| PageSteps(v.pages, v.ledger, Takes(lo, n), s1, l1, root) && GivenBack(s1, l1, r, k, root);
    var block, pages: nat :| PageSteps(s1, l1, Gives(block, pages, pages), r, k, root);
    var t1, v1 := PageRun(t, v, root, Takes(lo, n), s1, l1);
    AsForetold(t, v, root, lo, n, t1, v1);
    forall x | 0 <= x < MEMORY_SIZE && m[x] != v1.mem[x] ensures HeapPage(v1.ledger, PageOf(x)) {
      StoredInHeap(layout, v.pages, v.ledger, lo, n, s1, l1, root, x);
    }
    var stores, t2 := StoreRun(t1, v1, root, m, MEMORY_SIZE);
    var v2 := v1.(mem := m);
    MatchesAfter(t1, v1, root, stores, t2, v2);
    OnlyGives(block, pages);
    var w;
    u, w := PageRun(t2, v2, root, Gives(block, pages, pages), r, k);
    LeadsOn(t1, v1, root, stores, t2, v2, AsSteps(Gives(block, pages, pages)), u, w);
    LeadsOn(t, v, root, AsSteps(Takes(lo, n)), t1, v1, stores + AsSteps(Gives(block, pages, pages)), u, w);
    steps := AsSteps(Takes(lo, n)) + (stores + AsSteps(Gives(block, pages, pages)));
  }

  lemma AsForetold(t: PageState, v: View, root: int, lo: int, n: nat, u: PageState, w: View)
    requires Foretold(t, v, root, lo) && Leads(t, v, root, AsSteps(Takes(lo, n)), u, w)
    ensures w.mem == v.mem && Matches(u, w, root) && |w.mem| == MEMORY_SIZE
  {
    MatchesAfter(t, v, root, AsSteps(Takes(lo, n)), u, w);
  }

  lemma MatchesAfter(t: PageState, v: View, root: int, steps: seq<Step>, u: PageState, w: View)
    requires Leads(t, v, root, steps, u, w)
    ensures Matches(u, w, root) && |w.mem| == MEMORY_SIZE
  {
    hide AllPossible;
  }

  lemma OnlyGives(block: int, pages: nat)
    ensures forall i :: 0 <= i < |Gives(block, pages, pages)| ==> Gives(block, pages, pages)[i].Give?
  {
  }

  // The kernel with its heap apart.
  ghost function ViewOf(k: Kernel.KernelMemory): View
    reads k.alloc, k.heap, k.heap.pager, k.heap.pager.bitmap, k.heap.pager.bitmap.bits
  {
    View(k.heap.pager.State(), k.heap.ledger, k.alloc.mem)
  }

  /** Any call to the allocator, and any store of a caller, in the one physical memory: it
      is a run of the machine, from one that shows the kernel before the call to one that
      shows it after. */
  method Answer(k: Kernel.KernelMemory, call: Accounts.Call, ghost books: Accounts.Books, ghost start: int, ghost end: int,
                ghost mods: seq<Boot.Module>, ghost t: PageState)
    returns (r: Allocator.Outcome, ghost steps: seq<Step>, ghost u: PageState)
    requires Service.Serving(k, start, end, mods, books) && Service.ModulesFit(mods) && Accounts.Proper(call, books)
    requires Matches(t, ViewOf(k), k.heap.pager.root) && Foretold(t, ViewOf(k), k.heap.pager.root, k.alloc.brk)
    modifies k.alloc, k.heap, k.heap.pager`phys, k.heap.pager`placement, k.heap.pager.bitmap.bits
    ensures r == Allocator.Panic <==> old(Accounts.Fails(Service.AccountOf(k), call, books))
    ensures r.Ret? ==>
      && Service.Serving(k, start, end, mods, Accounts.Noted(books, call, r.p))
      && Leads(t, old(ViewOf(k)), k.heap.pager.root, steps, u, ViewOf(k))
  {
    hide Service.Serving, Matches, Foretold, Accounts.InOrder, Accounts.AfterCall, Accounts.Result, Accounts.Fails,
         Accounts.Noted, Accounts.Proper, Service.ModulesFit, Paged, Leads, Allocator.Confined, Kernel.Backed, Layout.Sound,
         Kernel.KernelMemory.Valid, Service.AccountOf;
    steps, u := [], t;
    Service.ServingIs(k, start, end, mods, books);
    ghost var v, l, lo := ViewOf(k), k.alloc.layout, k.alloc.brk;
    KernelIs(k);
    r := Service.Answer(k, call, books, start, end, mods);
    if r == Allocator.Panic { return; }
    Service.ServingIs(k, start, end, mods, Accounts.Noted(books, call, r.p));
    KernelIs(k);
    WholePages(lo, k.alloc.brk);
    steps, u := CallIsRun(t, v, k.heap.pager.root, l, lo, (k.alloc.brk - lo) / PAGE_SIZE, k.heap.pager.State(), k.heap.ledger,
                          k.alloc.mem);
  }

  lemma WholePages(lo: int, hi: int)
    requires lo % PAGE_SIZE == 0 && hi % PAGE_SIZE == 0
    ensures lo + (hi - lo) / PAGE_SIZE * PAGE_SIZE == hi
  {
  }

  lemma KernelIs(k: Kernel.KernelMemory)
    requires k.Valid()
    ensures k.alloc.brk % PAGE_SIZE == 0 && Layout.Sound(k.alloc.layout) && Kernel.Backed(k.alloc.layout, k.heap.ledger)
    ensures |k.alloc.mem| == MEMORY_SIZE
    ensures forall i :: 0 <= i < |k.alloc.layout| ==> PLACEMENT_END <= k.alloc.layout[i].base
  {
    forall i | 0 <= i < |k.alloc.layout| ensures PLACEMENT_END <= k.alloc.layout[i].base {
      assert Search.Within(k.alloc.layout[i], k.alloc.brk);
    }
  }
}
