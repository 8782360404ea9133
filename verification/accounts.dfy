/** What any sequence of calls to the allocator comes to: a function of the layout, of the
    page frames that are left, and of what the callers have written. */
module Accounts {
  import opened Machine
  import opened Layout
  import opened Search
  import opened Headers
  import opened Allocator
  import opened History
  import opened Memory
  import Kernel

  // The layout, how many page frames are free, and whether the kernel heap has its page table.
  datatype Account = Account(heap: HeapState, frames: int, table: bool)

  // What the callers have: by pointer, for each byte of the payload what was last written
  // to it, if anything was.
  type Books = map<int, seq<Option<Byte>>>

  datatype Call =
    | Malloc(req: int)
    | Calloc(count: int, size: int)
    | Free(ptr: int)
    | Realloc(ptr: int, size: int)
    | Write(ptr: int, at: int, b: Byte)      // a caller's own store

  function Sizes(books: Books): map<int, int> { map p | p in books :: |books[p]| }

  // The pointer a call is given is NULL or one of those the callers have, its size can be
  // asked for, and a store stays inside the payload.
  predicate Proper(call: Call, books: Books) {
    match call
    case Malloc(req) => 0 <= req <= MAX_REQUEST
    case Calloc(count, size) => 0 <= count && 0 <= size && Total(count, size) <= MAX_REQUEST
    case Free(ptr) => ptr == 0 || ptr in books
    case Realloc(ptr, size) => (ptr == 0 || ptr in books) && 0 <= size <= MAX_REQUEST
    case Write(ptr, at, _) => ptr in books && 0 <= at < |books[ptr]|
  }

  // The first size bytes of what was there, and nothing known of the rest.
  function Fitted(cells: seq<Option<Byte>>, size: int): (r: seq<Option<Byte>>)
    requires 0 <= size
    ensures |r| == size
  {
    if size <= |cells| then cells[..size] else cells + seq(size - |cells|, _ => None)
  }

  function Cells(books: Books, ptr: int): seq<Option<Byte>> { if ptr in books then books[ptr] else [] }

  // What the callers have once the call has returned p.
  function Noted(books: Books, call: Call, p: int): Books
    requires Proper(call, books)
  {
    match call
    case Malloc(req) => books[p := Fitted([], req)]
    case Calloc(count, size) => books[p := seq(Total(count, size), _ => Some(0))]
    case Free(ptr) => books - {ptr}
    case Realloc(ptr, size) => if size == 0 then books - {ptr} else (books - {ptr})[p := Fitted(Cells(books, ptr), size)]
    case Write(ptr, at, b) => books[ptr := books[ptr][at := Some(b)]]
  }

  // A payload of n bytes is noted at q.
  predicate Known(books: Books, call: Call, p: int, q: int, n: int)
    requires Proper(call, books)
  {
    q in Noted(books, call, p) && |Noted(books, call, p)[q]| == n
  }

  /** Nothing that can be known of a payload is left out: a zeroed one is known to be zero, one
      that has been resized to begin as it did, and a store to have changed one byte. */
  lemma NothingForgotten(books: Books, call: Call, p: int, j: int)
    requires Proper(call, books)
    ensures call.Malloc? ==> Known(books, call, p, p, call.req)
    ensures call.Calloc? && call.count * call.size < WORD_RANGE ==> Known(books, call, p, p, call.count * call.size)
    ensures call.Realloc? && call.size != 0 ==> Known(books, call, p, p, call.size)
    ensures call.Write? ==> Known(books, call, p, call.ptr, |books[call.ptr]|)
    ensures var cells := Cells(Noted(books, call, p), if call.Write? then call.ptr else p);
      0 <= j < |cells| ==>
        && (call.Calloc? ==> cells[j] == Some(0))
        && (call.Realloc? && call.size != 0 && call.ptr in books && j < |books[call.ptr]| ==> cells[j] == books[call.ptr][j])
        && (call.Write? ==> cells[j] == if j == call.at then Some(call.b) else books[call.ptr][j])
  {
  }

  /** The other payloads are what they were, and a freed one is gone. */
  lemma OthersStay(books: Books, call: Call, p: int, q: int)
    requires Proper(call, books) && q != p
    ensures q in Noted(books, call, p) <==> q in books && !((call.Free? || call.Realloc?) && q == call.ptr)
    ensures q in Noted(books, call, p) && !(call.Write? && q == call.ptr) ==> Noted(books, call, p)[q] == books[q]
  {
  }

  // ----------------------------------------------------------------- one call

  /** The layout is in order, and the payloads in it are what the callers have. */
  ghost predicate InOrder(a: Account, books: Books) {
    Good(a.heap) && a.heap.brk <= KHEAP_END && Agrees(a.heap.layout, Sizes(books))
  }

  ghost predicate IsPlace(l: seq<Block>, ptr: int, w: (int, int)) { Points(l, w.0, w.1, ptr) }

  // Where the minor of a pointer is.
  ghost function Where(l: seq<Block>, ptr: int): (w: (int, int))
    requires exists w :: IsPlace(l, ptr, w)
    ensures Points(l, w.0, w.1, ptr)
  {
    var w :| IsPlace(l, ptr, w);
    w
  }

  lemma OnlyPlace(l: seq<Block>, ptr: int, i: int, k: int)
    requires Sound(l) && Points(l, i, k, ptr)
    ensures IsPlace(l, ptr, (i, k)) && Where(l, ptr) == (i, k)
  {
    assert IsPlace(l, ptr, (i, k));
    var w := Where(l, ptr);
    SameMinor(l, i, k, w.0, w.1);
  }

  // The frames kmalloc asks for if it grows the heap.
  function Wanted(a: Account, req: int): int { if a.table then PagesFor(req) else PagesFor(req) + 1 }

  // The request cannot be granted.
  ghost predicate Short(a: Account, req: int)
    requires BetListed(a.heap.layout, a.heap.bet)
  {
    Grows(a.heap, req) && !(CanGrow(a.heap, req) && a.frames >= Wanted(a, req))
  }

  ghost function Granted(a: Account, req: int): Account
    requires BetListed(a.heap.layout, a.heap.bet)
  {
    if Grows(a.heap, req) then Account(AfterMalloc(a.heap, req), a.frames - Wanted(a, req), true)
    else Account(AfterMalloc(a.heap, req), a.frames, a.table)
  }

  ghost function Released(a: Account, ptr: int): Account
    requires BetListed(a.heap.layout, a.heap.bet) && exists w :: IsPlace(a.heap.layout, ptr, w)
  {
    var (i, k) := Where(a.heap.layout, ptr);
    Account(AfterFree(a.heap, i, k), a.frames + Kernel.Released(a.heap.layout[i]), a.table)
  }

  // A krealloc has to allocate.
  predicate Moves(ptr: int, size: int, books: Books) { |Cells(books, ptr)| < size }

  /** The call runs out of memory. */
  ghost predicate Fails(a: Account, call: Call, books: Books)
    requires InOrder(a, books) && Proper(call, books)
  {
    match call
    case Malloc(req) => Short(a, req)
    case Calloc(count, size) => Short(a, Total(count, size))
    case Realloc(ptr, size) => Moves(ptr, size, books) && Short(a, size)
    case _ => false
  }

  // What it leaves behind otherwise: a krealloc that moves is a kmalloc and a kfree.
  ghost function AfterCall(a: Account, call: Call, books: Books): Account
    requires InOrder(a, books) && Proper(call, books)
  {
    match call
    case Malloc(req) => Granted(a, req)
    case Calloc(count, size) => Granted(a, Total(count, size))
    case Free(ptr) =>
      if ptr == 0 then a else
      HasPlace(a, books, ptr);
      Released(a, ptr)
    case Realloc(ptr, size) =>
      if ptr == 0 then if size == 0 then a else Granted(a, size) else
      HasPlace(a, books, ptr);
      if size == 0 then Released(a, ptr)
      else if Moves(ptr, size, books) then
        PlaceAfterMalloc(a, books, ptr, size);
        Released(Granted(a, size), ptr)
      else
        var (i, k) := Where(a.heap.layout, ptr);
        a.(heap := a.heap.(layout := Resized(a.heap.layout, i, k, size)))
    case Write(_, _, _) => a
  }

  ghost function Result(a: Account, call: Call, books: Books): int
    requires InOrder(a, books) && Proper(call, books)
  {
    match call
    case Malloc(req) => Search.Returned(a.heap, req)
    case Calloc(count, size) => Search.Returned(a.heap, Total(count, size))
    case Realloc(ptr, size) =>
      if size == 0 then 0 else if Moves(ptr, size, books) then Search.Returned(a.heap, size) else ptr
    case _ => 0
  }

  // --------------------------------------------------------- facts about a call

  lemma HasPlace(a: Account, books: Books, ptr: int)
    requires InOrder(a, books) && ptr in books
    ensures (exists w :: IsPlace(a.heap.layout, ptr, w)) && ptr != 0
    ensures var (i, k) := Where(a.heap.layout, ptr); a.heap.layout[i].chunks[k].req == |books[ptr]|
  {
    hide PayloadOf;
    var l := a.heap.layout;
    assert Holds(l, ptr, |books[ptr]|);
    var i, k :| Listed(l, i, k) && HeldBy(l[i].chunks[k], ptr, |books[ptr]|);
    OnlyPlace(l, ptr, i, k);
    NoNull(a.heap, i, k);
  }

  lemma NoNull(s: HeapState, i: int, k: int)
    requires Good(s) && Listed(s.layout, i, k)
    ensures PayloadOf(s.layout[i].chunks[k].addr) > 0
  {
    assert WellPlaced(s.layout[i]) && ChunkOk(s.layout[i], s.layout[i].chunks[k]);
  }

  lemma PlaceAfterMalloc(a: Account, books: Books, ptr: int, req: int)
    requires InOrder(a, books) && ptr in books
    ensures var s := AfterMalloc(a.heap, req);
      BetListed(s.layout, s.bet) && exists w :: IsPlace(s.layout, ptr, w)
  {
    hide AfterMalloc, PayloadOf;
    HasPlace(a, books, ptr);
    var (i, k) := Where(a.heap.layout, ptr);
    MallocKeepsMinors(a.heap, req, i, k);
    BetAfterMalloc(a.heap, req);
    assert IsPlace(AfterMalloc(a.heap, req).layout, ptr, (i, MovedTo(a.heap, req, i, k)));
  }

  // Only sizes matter to the layout.
  ghost predicate Holding(a: Account, sizes: map<int, int>) {
    Good(a.heap) && a.heap.brk <= KHEAP_END && Agrees(a.heap.layout, sizes)
  }

  lemma GrantedNoted(a: Account, sizes: map<int, int>, req: int)
    requires Holding(a, sizes) && 0 <= req && !Short(a, req)
    ensures Holding(Granted(a, req), sizes[Search.Returned(a.heap, req) := req])
    ensures Search.Returned(a.heap, req) !in sizes
  {
    hide Holds, Sound, NoneEmpty, AfterMalloc, Search.Returned, Grows, CanGrow;
    MallocAdds(a.heap, req);
    MallocKeepsGood(a.heap, req);
    BrkAfterMalloc(a.heap, req);
    AllHeld(a.heap.layout, sizes);
  }

  lemma AllHeld(l: seq<Block>, sizes: map<int, int>)
    requires Agrees(l, sizes)
    ensures forall p :: p in sizes ==> Holds(l, p, sizes[p])
  {
    hide Holds;
  }

  lemma BrkAfterMalloc(s: HeapState, req: int)
    requires Good(s) && s.brk <= KHEAP_END && (Grows(s, req) ==> CanGrow(s, req))
    ensures AfterMalloc(s, req).brk <= KHEAP_END
  {
    hide Choose, GapFor, FinalBet;
  }

  lemma ReleasedNoted(a: Account, sizes: map<int, int>, ptr: int)
    requires Holding(a, sizes) && exists w :: IsPlace(a.heap.layout, ptr, w)
    ensures Holding(Released(a, ptr), sizes - {ptr})
  {
    hide Holds, AfterFree, PayloadOf, Good;
    var (i, k) := Where(a.heap.layout, ptr);
    BetOfGood(a.heap);
    FreeRemoves(a.heap, i, k);
    FreeKeepsGood(a.heap, i, k);
    BrkAfterFree(a.heap, i, k);
  }

  lemma ResizedNoted(a: Account, sizes: map<int, int>, ptr: int, i: int, k: int, req: int)
    requires Holding(a, sizes) && Points(a.heap.layout, i, k, ptr) && 0 <= req <= a.heap.layout[i].chunks[k].req
    ensures Holding(a.(heap := a.heap.(layout := Resized(a.heap.layout, i, k, req))), sizes[ptr := req])
  {
    hide Holds, Resized, PayloadOf, Good;
    ShrinkReplaces(a.heap, i, k, req);
    ResizeKeepsGood(a.heap, i, k, req);
  }

  lemma {:induction false} SizesNoted(books: Books, call: Call, p: int)
    requires Proper(call, books)
    ensures Sizes(Noted(books, call, p)) == match call
      case Malloc(req) => Sizes(books)[p := req]
      case Calloc(count, size) => Sizes(books)[p := Total(count, size)]
      case Free(ptr) => Sizes(books) - {ptr}
      case Realloc(ptr, size) => if size == 0 then Sizes(books) - {ptr} else (Sizes(books) - {ptr})[p := size]
      case Write(_, _, _) => Sizes(books)
  {
  }

  /** A call that does not run out of memory leaves the layout in order, with what the
      callers then have in it. */
  lemma CallKeeps(a: Account, call: Call, books: Books)
    requires InOrder(a, books) && Proper(call, books) && !Fails(a, call, books)
    ensures InOrder(AfterCall(a, call, books), Noted(books, call, Result(a, call, books)))
  {
    hide Good, Agrees, AfterMalloc, AfterFree, Search.Returned, Short, Noted, Sizes, PayloadOf, Resized, Grows, CanGrow;
    var m := Sizes(books);
    SizesNoted(books, call, Result(a, call, books));
    SizeOf(books);
    NullNotHeld(a, books);
    BetOfGood(a.heap);
    match call
    case Malloc(req) => GrantedNoted(a, m, req);
    case Calloc(count, size) => GrantedNoted(a, m, Total(count, size));
    case Write(_, _, _) =>
    case Free(ptr) =>
      if ptr == 0 {
        assert m - {0} == m;
      } else {
        HasPlace(a, books, ptr);
        ReleasedNoted(a, m, ptr);
      }
    case Realloc(ptr, size) =>
      if ptr == 0 {
        assert m - {0} == m;
        if size != 0 { GrantedNoted(a, m, size); }
      } else {
        HasPlace(a, books, ptr);
        if size == 0 {
          ReleasedNoted(a, m, ptr);
        } else if Moves(ptr, size, books) {
          var q := Search.Returned(a.heap, size);
          PlaceAfterMalloc(a, books, ptr, size);
          GrantedNoted(a, m, size);
          ReleasedNoted(Granted(a, size), m[q := size], ptr);
          assert m[q := size] - {ptr} == (m - {ptr})[q := size];
        } else {
          var (i, k) := Where(a.heap.layout, ptr);
          ResizedNoted(a, m, ptr, i, k, size);
          assert m[ptr := size] == (m - {ptr})[ptr := size];
        }
      }
  }

  lemma SizeOf(books: Books)
    ensures forall p :: p in Sizes(books) <==> p in books
    ensures forall p :: p in books ==> Sizes(books)[p] == |books[p]|
  {
  }

  lemma NullNotHeld(a: Account, books: Books)
    requires InOrder(a, books)
    ensures 0 !in books
  {
    if 0 in books { HasPlace(a, books, 0); }
  }

  /** A krealloc that does not grow the payload stays where it is, never fails, and to the
      size it has changes nothing. */
  lemma ReallocStays(a: Account, books: Books, ptr: int, size: int)
    requires InOrder(a, books) && ptr in books && 0 < size <= |books[ptr]| && Proper(Realloc(ptr, size), books)
    ensures !Fails(a, Realloc(ptr, size), books) && Result(a, Realloc(ptr, size), books) == ptr
    ensures AfterCall(a, Realloc(ptr, size), books).frames == a.frames
    ensures size == |books[ptr]| ==>
      AfterCall(a, Realloc(ptr, size), books) == a && Noted(books, Realloc(ptr, size), ptr) == books
  {
    hide PayloadOf;
    HasPlace(a, books, ptr);
    if size == |books[ptr]| {
      var (i, k) := Where(a.heap.layout, ptr);
      var b := a.heap.layout[i];
      assert b.chunks[k := b.chunks[k].(req := size)] == b.chunks;
      assert Resized(a.heap.layout, i, k, size) == a.heap.layout;
      PutBack(books, ptr);
    }
  }

  lemma PutBack(books: Books, ptr: int)
    requires ptr in books
    ensures Fitted(books[ptr], |books[ptr]|) == books[ptr] && (books - {ptr})[ptr := books[ptr]] == books
  {
    var b := (books - {ptr})[ptr := books[ptr]];
    assert b.Keys == books.Keys;
    assert forall p :: p in books ==> b[p] == books[p];
  }

  // ----------------------------------------------------------- over whole runs

  datatype End = Finished | Misused | OutOfMemory

  // How calls end: with how many of them done, what they returned, and what is then there.
  datatype Course = Course(end: End, results: seq<int>, books: Books, account: Account)

  /** The course of any sequence of calls, up to one that is not proper or fails. */
  ghost function CourseOf(a: Account, books: Books, calls: seq<Call>): (c: Course)
    requires InOrder(a, books)
    ensures |c.results| <= |calls| && InOrder(c.account, c.books)
    decreases |calls|
  {
    if calls == [] then Course(Finished, [], books, a)
    else if !Proper(calls[0], books) then Course(Misused, [], books, a)
    else if Fails(a, calls[0], books) then Course(OutOfMemory, [], books, a)
    else
      var p := Result(a, calls[0], books);
      CallKeeps(a, calls[0], books);
      var c := CourseOf(AfterCall(a, calls[0], books), Noted(books, calls[0], p), calls[1..]);
      c.(results := [p] + c.results)
  }

  /** It stops only where it has to. */
  lemma {:induction false} StopsWhere(a: Account, books: Books, calls: seq<Call>)
    requires InOrder(a, books)
    ensures var c := CourseOf(a, books, calls); var n := |c.results|;
      && (c.end == Finished <==> n == |calls|)
      && (c.end == Misused <==> n < |calls| && !Proper(calls[n], c.books))
      && (c.end == OutOfMemory <==> n < |calls| && Proper(calls[n], c.books) && Fails(c.account, calls[n], c.books))
    decreases |calls|
  {
    hide InOrder, AfterCall, Noted, Fails, Proper;
    if calls != [] && Proper(calls[0], books) && !Fails(a, calls[0], books) {
      var p := Result(a, calls[0], books);
      CallKeeps(a, calls[0], books);
      StopsWhere(AfterCall(a, calls[0], books), Noted(books, calls[0], p), calls[1..]);
    }
  }

  // The pages a call may need for a new major, and those of all calls.
  function Asks(call: Call): int {
    match call
    case Malloc(req) => PagesFor(req)
    case Calloc(count, size) => PagesFor(Total(count, size))
    case Realloc(_, size) => PagesFor(size)
    case _ => 0
  }

  function AsksAll(calls: seq<Call>): int {
    if calls == [] then 0 else Asks(calls[0]) + AsksAll(calls[1..])
  }

  // Enough memory for n pages more.
  predicate Enough(a: Account, n: int) {
    a.frames >= n + (if a.table then 0 else 1) && a.heap.brk + n * PAGE_SIZE <= KHEAP_END
  }

  lemma CallTakes(a: Account, call: Call, books: Books, n: int)
    requires InOrder(a, books) && Proper(call, books) && 0 <= n && Enough(a, Asks(call) + n)
    ensures !Fails(a, call, books) && Enough(AfterCall(a, call, books), n)
  {
    hide Good, Agrees, AfterFree, PayloadOf, Resized, Choose, GapFor, FinalBet, Place, Search.Returned, PagesFor;
    BetOfGood(a.heap);
    match call
    case Malloc(req) => SomePages(req);
    case Calloc(count, size) => SomePages(Total(count, size));
    case Write(_, _, _) =>
    case Free(ptr) =>
      if ptr != 0 {
        HasPlace(a, books, ptr);
        ReleaseGives(a, ptr);
      }
    case Realloc(ptr, size) =>
      SomePages(size);
      if ptr != 0 {
        HasPlace(a, books, ptr);
        if size == 0 {
          ReleaseGives(a, ptr);
        } else if Moves(ptr, size, books) {
          PlaceAfterMalloc(a, books, ptr, size);
          GrantedNoted(a, Sizes(books), size);
          ReleaseGives(Granted(a, size), ptr);
        }
      }
  }

  lemma ReleaseGives(a: Account, ptr: int)
    requires Good(a.heap) && exists w :: IsPlace(a.heap.layout, ptr, w)
    ensures BetListed(a.heap.layout, a.heap.bet)
    ensures var r := Released(a, ptr); r.frames >= a.frames && r.table == a.table && r.heap.brk == a.heap.brk
  {
    hide PayloadOf, Release;
    var (i, k) := Where(a.heap.layout, ptr);
    assert WellPlaced(a.heap.layout[i]);
  }

  lemma SomePages(req: int)
    ensures PagesFor(req) > 0
  {
  }

  /** Memory lasts if there are the pages for a new major for every call that allocates,
      and a frame for the heap's page table. */
  lemma {:induction false} LastsWhen(a: Account, books: Books, calls: seq<Call>)
    requires InOrder(a, books) && Enough(a, AsksAll(calls))
    ensures CourseOf(a, books, calls).end != OutOfMemory
    decreases |calls|
  {
    hide InOrder, AfterCall, Noted, Fails, Proper, Asks, Enough;
    if calls != [] && Proper(calls[0], books) {
      var p := Result(a, calls[0], books);
      AsksSome(calls[1..]);
      CallTakes(a, calls[0], books, AsksAll(calls[1..]));
      CallKeeps(a, calls[0], books);
      LastsWhen(AfterCall(a, calls[0], books), Noted(books, calls[0], p), calls[1..]);
    }
  }

  lemma AsksSome(calls: seq<Call>)
    ensures AsksAll(calls) >= 0
  {
    hide PagesFor;
    if calls != [] {
      AsksSome(calls[1..]);
      match calls[0]
      case Malloc(req) => SomePages(req);
      case Calloc(count, size) => SomePages(Total(count, size));
      case Realloc(_, size) => SomePages(size);
      case _ =>
    }
  }
}
