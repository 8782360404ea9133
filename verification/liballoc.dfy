/** kmalloc, kfree, krealloc and kcalloc over the flat memory. */
module Allocator {
  import opened Machine
  import opened Memory
  import opened Layout
  import opened Search
  import opened Headers

  // A call that runs out of frames or of kernel heap panics and does not return.
  datatype Outcome = Panic | Ret(p: int)

  class Liballoc {
    var mem: seq<Byte>
    var memRoot: int           // l_memRoot
    var bestBet: int           // l_bestBet
    var inuse: int             // l_inuse
    var held: int              // l_allocated
    var brk: int               // kheap.base + kheap.size
    var interrupts: bool       // the processor's interrupt flag
    var enableInt: bool        // enable_int
    var warnings: int          // l_warningCount
    var errors: int            // l_errorCount
    var overruns: int          // l_possibleOverruns
    ghost var layout: seq<Block>

    ghost function State(): HeapState
      reads `layout, `bestBet, `brk
    {
      HeapState(layout, bestBet, brk)
    }

    /** Memory and the globals agree with the layout, and the layout is in order. */
    ghost predicate Linked()
      reads `mem, `memRoot, `bestBet, `inuse, `held, `brk, `layout
    {
      && |mem| == MEMORY_SIZE && Sane(State()) && Image(mem, layout)
      && memRoot == (if layout == [] then 0 else layout[0].base)
      && inuse == InUse(layout) && held == Allocated(layout)
    }

    ghost predicate Valid()
      reads `mem, `memRoot, `bestBet, `inuse, `held, `brk, `layout
    {
      Linked() && NoneEmpty(layout)
    }

    constructor (mem: seq<Byte>)
      requires |mem| == MEMORY_SIZE
      ensures Valid() && State() == INITIAL && this.mem == mem
    {
      this.mem := mem;
      memRoot, bestBet, inuse, held, brk := 0, 0, 0, 0, KHEAP_START;
      interrupts, enableInt := true, false;
      warnings, errors, overruns := 0, 0, 0;
      layout := [];
    }

    // ------------------------------------------------------------ stores

    // What is stored always lies inside a major.
    method StoreMinor(a: int, h: Minor)
      requires |mem| == MEMORY_SIZE && InMemory(a, MINOR_SIZE) && MinorFits(h) && InMajor(layout, a, MINOR_SIZE)
      modifies `mem
      ensures |mem| == MEMORY_SIZE && MinorAt(mem, a) == h
      ensures SameOutside(old(mem), mem, a, MINOR_SIZE)
      ensures HeadersApart(old(mem), mem, a, MINOR_SIZE)
    {
      mem := Put(mem, a, MinorBytes(h));
      ReadMinor(mem, a, h);
      OtherHeaders(old(mem), mem, a, MINOR_SIZE);
    }

    method StoreMajor(a: int, h: Major)
      requires |mem| == MEMORY_SIZE && InMemory(a, MAJOR_SIZE) && MajorFits(h) && InMajor(layout, a, MAJOR_SIZE)
      modifies `mem
      ensures |mem| == MEMORY_SIZE && MajorAt(mem, a) == h
      ensures SameOutside(old(mem), mem, a, MAJOR_SIZE)
      ensures HeadersApart(old(mem), mem, a, MAJOR_SIZE)
    {
      mem := Put(mem, a, MajorBytes(h));
      ReadMajor(mem, a, h);
      OtherHeaders(old(mem), mem, a, MAJOR_SIZE);
    }

    // The ALIGN macro.
    method Align(ptr: int) returns (r: int)
      requires |mem| == MEMORY_SIZE && InMemory(ptr, ALIGN_INFO + ALIGNMENT) && InMajor(layout, ptr, ALIGN_INFO + ALIGNMENT)
      modifies `mem
      ensures r == PayloadOf(ptr - MINOR_SIZE)
      ensures |mem| == MEMORY_SIZE && mem[r - ALIGN_INFO] == r - ptr
      ensures SameOutside(old(mem), mem, r - ALIGN_INFO, 1)
      ensures HeadersApart(old(mem), mem, r - ALIGN_INFO, 1)
    {
      r := ptr + ALIGN_INFO;
      var diff := r % ALIGNMENT;
      if diff != 0 {
        diff := ALIGNMENT - diff;
        r := r + diff;
      }
      mem := mem[r - ALIGN_INFO := diff + ALIGN_INFO];
      OtherHeaders(old(mem), mem, r - ALIGN_INFO, 1);
    }

    // liballoc_lock and liballoc_unlock.
    method Lock()
      modifies `interrupts, `enableInt
      ensures !interrupts && enableInt == old(interrupts)
    {
      if interrupts {
        enableInt := true;
        interrupts := false;
      } else {
        enableInt := false;
      }
    }

    method Unlock()
      requires !interrupts
      modifies `interrupts
      ensures interrupts == enableInt
    {
      if enableInt { interrupts := true; }
    }

    // ------------------------------------------------------------ growth

    // allocate_new_page, for a padded size.
    method AllocateNewPage(size: int, framesLeft: bool) returns (ok: bool, maj: int)
      requires |mem| == MEMORY_SIZE && 0 <= size - Padded(0) <= MAX_REQUEST
      requires KHEAP_START <= brk <= KHEAP_END
      modifies `mem, `brk, `held, `layout
      ensures ok <==> framesLeft && Limit(Fresh(old(brk), size - Padded(0))) <= KHEAP_END
      ensures ok ==>
        var b := Fresh(old(brk), size - Padded(0));
        && maj == old(brk) && brk == Limit(b) && |mem| == MEMORY_SIZE
        && held == old(held) + b.pages * PAGE_SIZE && layout == old(layout) + [b]
        && MajorAt(mem, maj) == MajorOf(b, 0, 0)
        && SameOutside(old(mem), mem, maj, MAJOR_SIZE) && HeadersApart(old(mem), mem, maj, MAJOR_SIZE)
    {
      hide MajorAt, MinorAt;
      var st := size + MAJOR_SIZE + MINOR_SIZE;
      if st % PAGE_SIZE == 0 { st := st / PAGE_SIZE; } else { st := st / PAGE_SIZE + 1; }
      if st < PAGE_COUNT { st := PAGE_COUNT; }
      ok := framesLeft && brk + st * PAGE_SIZE <= KHEAP_END;
      maj := 0;
      if ok {
        maj := brk;
        brk := brk + st * PAGE_SIZE;
        layout := layout + [Fresh(maj, size - Padded(0))];
        Inside(layout, |layout| - 1, maj, MAJOR_SIZE);
        StoreMajor(maj, Major(0, 0, st, st * PAGE_SIZE, MAJOR_SIZE, 0));
        held := held + st * PAGE_SIZE;
      }
    }

    // The majors have grown by a fresh one for req.
    twostate predicate Grown(req: int, p: int)
      reads this
    {
      && Linked() && layout == old(layout) + [Fresh(old(brk), req)] && p == old(brk)
      && brk == Limit(Fresh(old(brk), req)) && bestBet == old(bestBet)
      && Kept(old(mem), mem, old(layout), old(brk), brk)
    }

    // The very first major.
    method FirstMajor(req: int, framesLeft: bool) returns (ok: bool)
      requires Linked() && layout == [] && 0 <= req <= MAX_REQUEST
      modifies `mem, `brk, `held, `memRoot, `layout
      ensures ok <==> framesLeft && CanGrow(old(State()), req)
      ensures ok ==> Grown(req, memRoot)
    {
      hide MajorAt, MinorAt, Sane, Image;
      var p;
      GrowthFacts(State(), req);
      ok, p := AllocateNewPage(Padded(req), framesLeft);
      if ok {
        memRoot := p;
        FinishGrowth(old(mem), mem, old(State()), req);
      }
    }

    // Another one behind the last, which is at maj (CASES 1 and 5).
    method AppendMajor(maj: int, req: int, framesLeft: bool) returns (ok: bool, p: int)
      requires Linked() && layout != [] && maj == layout[|layout| - 1].base
      requires 0 <= req <= MAX_REQUEST
      modifies `mem, `brk, `held, `layout
      ensures ok <==> framesLeft && CanGrow(old(State()), req)
      ensures ok ==> Grown(req, p)
    {
      hide MajorAt, MinorAt, Sane, Image, Usage, Kept;
      ghost var z := |layout| - 1;
      GrowthFacts(State(), req);
      MajorHeader(State(), mem, z);
      MajorFields(State(), z);
      ok, p := AllocateNewPage(Padded(req), framesLeft);
      if ok {
        var h := MajorAt(mem, maj);
        MajorInside(old(State()), z);
        InsideMore(old(layout), Fresh(p, req), maj, MAJOR_SIZE);
        StoreMajor(maj, h.(next := p));
        h := MajorAt(mem, p);
        Inside(layout, |layout| - 1, p, MAJOR_SIZE);
        StoreMajor(p, h.(prev := maj));
        FinishGrowth(old(mem), mem, old(State()), req);
      }
    }

    // ------------------------------------------------------ putting in place

    // A request was put into gap k of major i, and p is what is returned for it.
    twostate predicate Placed(i: int, k: int, req: int, p: int)
      requires 0 <= i < |old(layout)| && 0 <= k <= |old(layout)[i].chunks|
      reads this
    {
      && Linked() && layout == Place(old(layout), i, k, req)
      && p == PayloadOf(GapStart(old(layout)[i], k))
      && bestBet == old(bestBet) && brk == old(brk)
      && Kept(old(mem), mem, old(layout), old(brk), brk)
    }

    // The headers are linked; what is left is to align the payload of the new minor, at min.
    method Complete(min: int, req: int, ghost m0: seq<Byte>, ghost i: int, ghost k: int) returns (p: int)
      requires |mem| == |m0| == MEMORY_SIZE && Sane(State()) && Image(m0, layout)
      requires 0 <= i < |layout| && 0 <= k <= |layout[i].chunks| && min == GapStart(layout[i], k)
      requires 0 <= req <= MAX_REQUEST && Gap(layout[i], k) >= Need(req)
      requires HeadersCarved(m0, mem, layout[i], k, req, PrevBase(layout, i), NextBase(layout, i))
      requires memRoot == layout[0].base && inuse == InUse(layout) + Padded(req) && held == Allocated(layout)
      modifies `mem, `layout
      ensures Linked() && layout == Place(old(layout), i, k, req) && p == PayloadOf(min)
      ensures Kept(m0, mem, old(layout), old(brk), brk)
    {
      hide MajorAt, MinorAt, MajorOf, MinorOf, Carve, Image, Sane, Kept, Usage, WellPlaced, PayloadOf,
           Place, InUse, Allocated;
      ghost var b := layout[i];
      GapNeighbours(State(), m0, i, k, req);
      CarveHeaders(b, k, req, PrevBase(layout, i), NextBase(layout, i));
      p := Align(min + MINOR_SIZE);
      assert Carved(m0, mem, b, k, req, PrevBase(layout, i), NextBase(layout, i));
      FinishPlace(m0, mem, State(), i, k, req);
      layout := Place(layout, i, k, req);
    }

    // CASE 2: the first minor of a brand new major.
    method PlaceFirst(maj: int, req: int, ghost i: int) returns (p: int)
      requires Linked() && 0 <= i < |layout| && layout[i].chunks == [] && maj == layout[i].base
      requires 0 <= req <= MAX_REQUEST && Gap(layout[i], 0) >= Need(req)
      modifies `mem, `inuse, `layout
      ensures Placed(i, 0, req, p)
    {
      hide MajorAt, MinorAt, MajorOf, MinorOf, Carve, Image, Sane, Kept, Usage, WellPlaced, PayloadOf;
      ghost var k := 0;
      ghost var m0, blk := mem, layout[i];
      GapNeighbours(State(), mem, i, k, req);
      CarveHeaders(layout[i], k, req, PrevBase(layout, i), NextBase(layout, i));
      var size := Padded(req);
      var first := maj + MAJOR_SIZE;
      var h := MajorAt(mem, maj);
      StoreMajor(maj, h.(first := first));
      StoreMinor(first, Minor(0, 0, maj, LIBALLOC_MAGIC, size, req));
      h := MajorAt(mem, maj);
      StoreMajor(maj, h.(usage := h.usage + size + MINOR_SIZE));
      inuse := inuse + size;
      assert HeadersCarved(m0, mem, blk, k, req, PrevBase(layout, i), NextBase(layout, i));
      p := Complete(first, req, m0, i, k);
    }

    // CASE 3: in front of the first minor.
    method PlaceFront(maj: int, req: int, ghost i: int) returns (p: int)
      requires Linked() && 0 <= i < |layout| && layout[i].chunks != [] && maj == layout[i].base
      requires 0 <= req <= MAX_REQUEST && Gap(layout[i], 0) >= Need(req)
      modifies `mem, `inuse, `layout
      ensures Placed(i, 0, req, p)
    {
      hide MajorAt, MinorAt, MajorOf, MinorOf, Carve, Image, Sane, Kept, Usage, WellPlaced, PayloadOf;
      ghost var k := 0;
      ghost var m0, blk := mem, layout[i];
      GapNeighbours(State(), mem, i, k, req);
      CarveHeaders(layout[i], k, req, PrevBase(layout, i), NextBase(layout, i));
      var size := Padded(req);
      var newMin := maj + MAJOR_SIZE;
      var h := MajorAt(mem, maj);
      var first := h.first;
      var a := MinorAt(mem, first);
      StoreMinor(first, a.(prev := newMin));
      StoreMinor(newMin, Minor(0, first, maj, LIBALLOC_MAGIC, size, req));
      h := MajorAt(mem, maj);
      StoreMajor(maj, h.(first := newMin, usage := h.usage + size + MINOR_SIZE));
      inuse := inuse + size;
      assert HeadersCarved(m0, mem, blk, k, req, PrevBase(layout, i), NextBase(layout, i));
      p := Complete(newMin, req, m0, i, k);
    }

    // CASE 4.1: behind the last minor, which is at min.
    method PlaceLast(maj: int, min: int, req: int, ghost i: int) returns (p: int)
      requires Linked() && 0 <= i < |layout| && layout[i].chunks != []
      requires maj == layout[i].base && min == layout[i].chunks[|layout[i].chunks| - 1].addr
      requires 0 <= req <= MAX_REQUEST && Gap(layout[i], |layout[i].chunks|) >= Need(req)
      modifies `mem, `inuse, `layout
      ensures Placed(i, |old(layout)[i].chunks|, req, p)
    {
      hide MajorAt, MinorAt, MajorOf, MinorOf, Carve, Image, Sane, Kept, Usage, WellPlaced, PayloadOf;
      ghost var k := |layout[i].chunks|;
      ghost var m0, blk := mem, layout[i];
      GapNeighbours(State(), mem, i, k, req);
      CarveHeaders(layout[i], k, req, PrevBase(layout, i), NextBase(layout, i));
      var size := Padded(req);
      var a := MinorAt(mem, min);
      var newMin := min + MINOR_SIZE + a.size;
      StoreMinor(min, a.(next := newMin));
      StoreMinor(newMin, Minor(min, 0, maj, LIBALLOC_MAGIC, size, req));
      var h := MajorAt(mem, maj);
      StoreMajor(maj, h.(usage := h.usage + size + MINOR_SIZE));
      inuse := inuse + size;
      assert HeadersCarved(m0, mem, blk, k, req, PrevBase(layout, i), NextBase(layout, i));
      p := Complete(newMin, req, m0, i, k);
    }

    // CASE 4.2: between the minor at min, which is number k - 1, and the next one.
    method PlaceBetween(maj: int, min: int, req: int, ghost i: int, ghost k: int) returns (p: int)
      requires Linked() && 0 <= i < |layout| && 0 < k < |layout[i].chunks|
      requires maj == layout[i].base && min == layout[i].chunks[k - 1].addr
      requires 0 <= req <= MAX_REQUEST && Gap(layout[i], k) >= Need(req)
      modifies `mem, `inuse, `layout
      ensures Placed(i, k, req, p)
    {
      hide MajorAt, MinorAt, MajorOf, MinorOf, Carve, Image, Sane, Kept, Usage, WellPlaced, PayloadOf;
      ghost var m0, blk := mem, layout[i];
      GapNeighbours(State(), mem, i, k, req);
      CarveHeaders(layout[i], k, req, PrevBase(layout, i), NextBase(layout, i));
      var size := Padded(req);
      var a := MinorAt(mem, min);
      var newMin, after := min + MINOR_SIZE + a.size, a.next;
      StoreMinor(newMin, Minor(min, after, maj, LIBALLOC_MAGIC, size, req));
      a := MinorAt(mem, after);
      StoreMinor(after, a.(prev := newMin));
      a := MinorAt(mem, min);
      StoreMinor(min, a.(next := newMin));
      var h := MajorAt(mem, maj);
      StoreMajor(maj, h.(usage := h.usage + size + MINOR_SIZE));
      inuse := inuse + size;
      assert HeadersCarved(m0, mem, blk, k, req, PrevBase(layout, i), NextBase(layout, i));
      p := Complete(newMin, req, m0, i, k);
    }

    // The loop of CASE 4, from the first minor of the major at maj, in front of which
    // there is no room: stops at the minor with the first gap behind it that holds the
    // request.
    method FindGap(maj: int, req: int, ghost i: int) returns (min: int, room: bool, atEnd: bool, ghost k: int)
      requires Linked() && 0 <= i < |layout| && layout[i].chunks != [] && maj == layout[i].base
      requires 0 <= req <= MAX_REQUEST && Gap(layout[i], 0) < Need(req)
      ensures k == FirstGap(layout[i], Need(req), 0)
      ensures var b := layout[i]; var g := FirstGap(b, Need(req), 0);
        && room == (g <= |b.chunks|)
        && (room ==> 0 < g && min == b.chunks[g - 1].addr && atEnd == (g == |b.chunks|))
    {
      hide MajorAt, MinorAt, Sane, Image, Usage, InUse, Allocated;
      ghost var b := layout[i];
      MajorHeader(State(), mem, i);
      MinorHeader(State(), mem, i, 0);
      var size := Padded(req);
      var h := MajorAt(mem, maj);
      min, room, atEnd, k := h.first, false, false, 0;
      while min != 0
        invariant 0 <= k <= |b.chunks|
        invariant min == if k == |b.chunks| then 0 else b.chunks[k].addr
        invariant k < |b.chunks| ==> min != 0
        invariant FirstGap(b, Need(req), 0) == FirstGap(b, Need(req), k + 1)
        decreases |b.chunks| - k
      {
        MinorHeader(State(), mem, i, k);
        var mn := MinorAt(mem, min);
        var diff;
        if mn.next == 0 {
          diff := maj + h.size - min - MINOR_SIZE - mn.size;
        } else {
          diff := mn.next - min - MINOR_SIZE - mn.size;
        }
        k := k + 1;
        assert diff == Gap(b, k);
        if diff >= size + MINOR_SIZE {
          room, atEnd := true, mn.next == 0;
          return;
        }
        min := mn.next;
      }
      k := k + 1;
    }

    // CASES 3 and 4: puts the request into the first gap of the major that holds it;
    // 0 if there is none.
    method TryBlock(maj: int, req: int, ghost i: int) returns (p: int)
      requires Linked() && 0 <= i < |layout| && layout[i].chunks != [] && maj == layout[i].base
      requires 0 <= req <= MAX_REQUEST
      modifies `mem, `inuse, `layout
      ensures var b := old(layout)[i]; var k := FirstGap(b, Need(req), 0);
        if k > |b.chunks| then
          p == 0 && mem == old(mem) && inuse == old(inuse) && layout == old(layout)
        else
          p != 0 && Placed(i, k, req, p)
    {
      hide MajorAt, MinorAt, Sane, Kept, Usage, Place, Image, InUse, Allocated;
      MajorHeader(State(), mem, i);
      MinorHeader(State(), mem, i, 0);
      var first := MajorAt(mem, maj).first;
      assert first - maj - MAJOR_SIZE == Gap(layout[i], 0);
      if first - maj - MAJOR_SIZE >= Padded(req) + MINOR_SIZE {
        p := PlaceFront(maj, req, i);
        return;
      }
      var min, room, atEnd;
      ghost var k;
      min, room, atEnd, k := FindGap(maj, req, i);
      if room {
        if atEnd {
          p := PlaceLast(maj, min, req, i);
        } else {
          p := PlaceBetween(maj, min, req, i, k);
        }
        return;
      }
      p := 0;
    }

    // CASES 2 to 4.
    method Fill(maj: int, req: int, ghost i: int) returns (p: int)
      requires Linked() && 0 <= i < |layout| && maj == layout[i].base
      requires 0 <= req <= MAX_REQUEST
      requires layout[i].chunks == [] ==> Gap(layout[i], 0) >= Need(req)
      modifies `mem, `inuse, `layout
      ensures var b := old(layout)[i]; var k := FirstGap(b, Need(req), 0);
        if k > |b.chunks| then
          p == 0 && mem == old(mem) && inuse == old(inuse) && layout == old(layout)
        else
          p != 0 && Placed(i, k, req, p)
    {
      hide MajorAt, MinorAt, Sane, Kept, Usage, Place, Image, InUse, Allocated;
      MajorHeader(State(), mem, i);
      if MajorAt(mem, maj).first == 0 {
        p := PlaceFirst(maj, req, i);
      } else {
        p := TryBlock(maj, req, i);
      }
    }

    // ------------------------------------------------------------- kmalloc

    // kmalloc, called in state s with memory m0, is looking at major i, which is at maj.
    ghost predicate Walking(s: HeapState, m0: seq<Byte>, req: int, framesLeft: bool,
                            maj: int, i: int, started: bool, bestSize: int, grown: bool)
      reads `mem, `memRoot, `bestBet, `inuse, `held, `brk, `layout
    {
      && Linked() && BetListed(s.layout, s.bet) && NoneEmpty(s.layout)
      && 0 <= i < |layout| && maj == layout[i].base && maj != 0
      && OnTrack(s, req, layout, brk, i, started, Bet(bestBet, bestSize), grown)
      && brk == (if grown then Limit(Fresh(s.brk, req)) else s.brk)
      && |m0| == |mem| && Kept(m0, mem, s.layout, s.brk, brk)
      && layout == Extended(s, req, grown)
      && (if grown then i == |s.layout| && framesLeft && CanGrow(s, req) else brk == s.brk)
    }

    // Up to the loop over the majors: where it starts.
    method Begin(req: int, framesLeft: bool)
      returns (ok: bool, maj: int, startedBet: bool, bestSize: int, ghost i: int, ghost grown: bool)
      requires Valid() && 0 <= req <= MAX_REQUEST
      modifies `mem, `brk, `held, `memRoot, `layout
      ensures !ok ==> old(Grows(State(), req)) && !(framesLeft && CanGrow(old(State()), req))
      ensures ok ==> Walking(old(State()), old(mem), req, framesLeft, maj, i, startedBet, bestSize, grown)
    {
      hide MajorAt, MinorAt, Sane, Image, Kept, Usage, Place, FirstGap, InUse, Allocated,
           OnTrack, AfterMalloc, Returned, FinalBet, Choose;
      ghost var s := State();
      i, grown := 0, false;
      NothingTouched(mem, s);
      BetOfSane(s);
      if layout == [] {
        TrackStartsEmpty(s, req);
      } else {
        MajorHeader(s, mem, 0);
        TrackStarts(s, req);
      }
      ok := true;
      maj, startedBet, bestSize := memRoot, false, 0;
      if memRoot == 0 {
        ok := FirstMajor(req, framesLeft);
        if !ok { return; }
        grown := true;
        assert layout == [Fresh(s.brk, req)];
        maj := memRoot;
      }
      if bestBet != 0 {
        ghost var j := IndexOf(layout, bestBet);
        MajorHeader(State(), mem, j);
        var h := MajorAt(mem, bestBet);
        bestSize := h.size - h.usage;
        if bestSize > Padded(req) + MINOR_SIZE {
          maj, startedBet, i := bestBet, true, j;
        }
      }
    }

    // The call in state s with memory m0 ends at major i, which is at maj, if that has room.
    ghost predicate Ready(s: HeapState, m0: seq<Byte>, req: int, framesLeft: bool, maj: int, i: int, grown: bool)
      reads `mem, `memRoot, `bestBet, `inuse, `held, `brk, `layout
    {
      && Linked() && BetListed(s.layout, s.bet) && NoneEmpty(s.layout)
      && 0 <= i < |layout| && maj == layout[i].base
      && EndsAt(s, req, layout, brk, i, bestBet) && brk == (if grown then Limit(Fresh(s.brk, req)) else s.brk)
      && |m0| == |mem| && Kept(m0, mem, s.layout, s.brk, brk)
      && layout == Extended(s, req, grown)
      && if grown then
           i == |s.layout| && framesLeft && CanGrow(s, req) && FirstGap(layout[i], Need(req), 0) == 0
         else
           FirstGap(layout[i], Need(req), 0) <= |layout[i].chunks| ==> !Grows(s, req)
    }

    method Settle(req: int, framesLeft: bool, maj: int,
                  ghost s: HeapState, ghost m0: seq<Byte>, ghost i: int, ghost grown: bool) returns (p: int)
      requires Ready(s, m0, req, framesLeft, maj, i, grown) && 0 <= req <= MAX_REQUEST
      modifies `mem, `inuse, `layout
      ensures p == 0 ==>
        && !grown && FirstGap(old(layout)[i], Need(req), 0) > |old(layout)[i].chunks|
        && mem == old(mem) && inuse == old(inuse) && layout == old(layout)
      ensures p != 0 ==>
        && Valid() && State() == AfterMalloc(s, req) && p == Returned(s, req)
        && Kept(m0, mem, s.layout, s.brk, brk) && (Grows(s, req) ==> framesLeft && CanGrow(s, req))
    {
      hide MajorAt, MinorAt, Sane, Image, Kept, Usage, Place, FirstGap, InUse, Allocated,
           OnTrack, AfterMalloc, Returned, FinalBet, Choose;
      ghost var k := FirstGap(layout[i], Need(req), 0);
      assert k <= |layout[i].chunks| ==> Gap(layout[i], k) >= Need(req);
      p := Fill(maj, req, i);
      if p != 0 {
        KeptTwice(m0, old(mem), mem, s.layout, old(layout), s.brk, old(brk), brk);
        PlaceFillsUp(s, old(layout), i, k, req);
      }
    }

    // No major has room: acquires another one.
    method Extend(req: int, framesLeft: bool, maj: int, bestSize: int,
                  ghost s: HeapState, ghost m0: seq<Byte>) returns (ok: bool, p: int)
      requires Linked() && BetListed(s.layout, s.bet) && NoneEmpty(s.layout) && 0 <= req <= MAX_REQUEST
      requires layout == s.layout != [] && maj == layout[|layout| - 1].base && brk == s.brk
      requires Grows(s, req) && Choose(s, req).bet == Bet(bestBet, bestSize)
      requires |m0| == |mem| && Kept(m0, mem, s.layout, s.brk, brk)
      modifies `mem, `brk, `held, `layout
      ensures !ok ==> !(framesLeft && CanGrow(s, req))
      ensures ok ==> brk == Limit(Fresh(s.brk, req))
      ensures ok ==>
        if Free(s.layout[|s.layout| - 1]) < Need(req)
        then Ready(s, m0, req, framesLeft, p, |s.layout|, true)
        else Walking(s, m0, req, framesLeft, p, |s.layout|, false, bestSize, true) &&
             MajorAt(mem, maj).next == p
    {
      hide MajorAt, MinorAt, Sane, Image, Kept, Usage, Place, FirstGap, InUse, Allocated,
           OnTrack, AfterMalloc, Returned, FinalBet, Choose;
      ok, p := AppendMajor(maj, req, framesLeft);
      if ok {
        KeptTwice(m0, old(mem), mem, s.layout, s.layout, s.brk, s.brk, brk);
        MajorHeader(State(), mem, |s.layout|);
        MajorHeader(State(), mem, |s.layout| - 1);
        if Free(s.layout[|s.layout| - 1]) < Need(req) {
          TrackEndsUnseen(s, req);
        } else {
          TrackGrows(s, req, Bet(bestBet, bestSize));
        }
      }
    }

    // Major i was rejected: on to the next one or, from the end, once back to the root
    // if the walk began at the best bet.  The same in CASE 1 and CASE 5.
    method Hop(req: int, framesLeft: bool, next: int, started: bool, bestSize: int,
               ghost s: HeapState, ghost m0: seq<Byte>, ghost i: int, ghost bet: Bet)
      returns (again: bool, maj: int, started': bool, ghost i': int)
      requires Linked() && BetListed(s.layout, s.bet) && NoneEmpty(s.layout)
      requires layout == s.layout && brk == s.brk && 0 <= i < |layout| && next == NextBase(layout, i)
      requires OnTrack(s, req, layout, brk, i, started, bet, false) && Rejected(layout[i], Need(req))
      requires Better(bet, layout[i]) == Bet(bestBet, bestSize)
      requires |m0| == |mem| && Kept(m0, mem, s.layout, s.brk, brk)
      ensures again ==>
        && Walking(s, m0, req, framesLeft, maj, i', started', bestSize, false)
        && ((started' == started && i' > i) || (started && !started'))
      ensures !again ==> !started' && i + 1 == |layout| && Grows(s, req) && Choose(s, req).bet == Bet(bestBet, bestSize)
    {
      hide MajorAt, MinorAt, Sane, Image, Kept, Usage, Place, FirstGap, InUse, Allocated,
           OnTrack, AfterMalloc, Returned, FinalBet, Choose;
      TrackMovesOn(s, req, i, started, bet);
      MajorHeader(State(), mem, i);
      MajorHeader(State(), mem, 0);
      again, maj, started', i' := true, next, started, i + 1;
      if next == 0 {
        again, maj, started', i' := started, memRoot, false, 0;
      }
    }

    // The end of CASE 1 and of CASE 5: on to another major, or to a new one if there is none.
    method Advance(req: int, framesLeft: bool, at: int, next: int, started: bool, bestSize: int,
                   ghost s: HeapState, ghost m0: seq<Byte>, ghost i: int, ghost bet: Bet)
      returns (ok: bool, again: bool, maj: int, started': bool, ghost i': int)
      requires Linked() && BetListed(s.layout, s.bet) && NoneEmpty(s.layout) && 0 <= req <= MAX_REQUEST
      requires layout == s.layout && brk == s.brk && 0 <= i < |layout| && at == layout[i].base && next == NextBase(layout, i)
      requires OnTrack(s, req, layout, brk, i, started, bet, false) && Rejected(layout[i], Need(req))
      requires Better(bet, layout[i]) == Bet(bestBet, bestSize)
      requires |m0| == |mem| && Kept(m0, mem, s.layout, s.brk, brk)
      modifies `mem, `brk, `held, `layout
      ensures !ok ==> Grows(s, req) && !(framesLeft && CanGrow(s, req))
      ensures ok && again ==>
        && Walking(s, m0, req, framesLeft, maj, i', started', bestSize, false) && layout == old(layout)
        && ((started' == started && i' > i) || (started && !started'))
      ensures ok && !again ==> !started' && i' == |s.layout|
      ensures ok && !again ==>
        if Free(s.layout[i]) < Need(req) then Ready(s, m0, req, framesLeft, maj, i', true)
        else Walking(s, m0, req, framesLeft, maj, i', false, bestSize, true)
    {
      hide MajorAt, MinorAt, Sane, Image, Kept, Usage, Place, FirstGap, InUse, Allocated,
           OnTrack, AfterMalloc, Returned, FinalBet, Choose, MajorOf, NextBase, WellPlaced, CanGrow, NoneEmpty, EndsAt, Gap;
      ok := true;
      again, maj, started', i' := Hop(req, framesLeft, next, started, bestSize, s, m0, i, bet);
      if !again {
        ok, maj := Extend(req, framesLeft, at, bestSize, s, m0);
        i' := |s.layout|;
      }
    }

    // What kmalloc does between taking and releasing the lock.
    method Search(req: int, framesLeft: bool) returns (ok: bool, p: int)
      requires Valid() && 0 <= req <= MAX_REQUEST
      modifies `mem, `memRoot, `bestBet, `inuse, `held, `brk, `layout
      ensures !ok ==> old(Grows(State(), req)) && !(framesLeft && CanGrow(old(State()), req))
      ensures ok ==>
        && Valid() && State() == AfterMalloc(old(State()), req) && p == Returned(old(State()), req)
        && Kept(old(mem), mem, old(layout), old(brk), brk)
        && (old(Grows(State(), req)) ==> framesLeft && CanGrow(old(State()), req))
    {
      hide MajorAt, MinorAt, Sane, Image, Kept, Usage, Place, FirstGap, InUse, Allocated,
           OnTrack, AfterMalloc, Returned, FinalBet, Choose, MajorOf, NextBase, WellPlaced, Free, Grows, CanGrow,
           NoneEmpty, EndsAt, Gap, Limit, BetListed;
      ghost var s, m0 := State(), mem;
      var size := Padded(req);
      var maj, startedBet, bestSize;
      ghost var i, grown;
      ok, maj, startedBet, bestSize, i, grown := Begin(req, framesLeft);
      p := 0;
      if !ok { return; }
      while maj != 0
        invariant ok && Walking(s, m0, req, framesLeft, maj, i, startedBet, bestSize, grown)
        decreases !grown, startedBet, |layout| - i
      {
        MajorHeader(State(), mem, i);
        MajorHeader(State(), mem, 0);
        ghost var bet := Bet(bestBet, bestSize);
        TrackEnds(s, req, layout, brk, i, startedBet, bet, grown);
        if grown { TrackGrown(s, req, layout, brk, i, startedBet, bet); }
        var at, h := maj, MajorAt(mem, maj);
        var diff := h.size - h.usage;
        if bestSize < diff {
          BetMovesTo(State(), i);
          bestBet := maj;
          bestSize := diff;
        }
        var again;
        if diff < size + MINOR_SIZE {
          ok, again, maj, startedBet, i := Advance(req, framesLeft, at, h.next, startedBet, bestSize, s, m0, i, bet);
          if !ok { return; }
          if again { continue; }
          grown := true;
        }
        p := Settle(req, framesLeft, maj, s, m0, i, grown);
        if p != 0 { return; }
        ok, again, maj, startedBet, i := Advance(req, framesLeft, at, h.next, startedBet, bestSize, s, m0, i, bet);
        if !ok { return; }
        grown := !again;
      }
      assert false;
    }

    /** The request is placed exactly where AfterMalloc says, no byte inside any minor
        there was is touched, and the call fails only if no gap was left. */
    method Kmalloc(req: int, framesLeft: bool) returns (r: Outcome)
      requires Valid() && 0 <= req <= MAX_REQUEST
      modifies this
      ensures r == Panic <==> old(Grows(State(), req)) && !(framesLeft && CanGrow(old(State()), req))
      ensures r.Ret? ==>
        && Valid() && State() == AfterMalloc(old(State()), req) && r.p == Returned(old(State()), req)
        && interrupts == old(interrupts) && Kept(old(mem), mem, old(layout), old(brk), brk)
    {
      hide Sane, Image, Kept, AfterMalloc, Returned, Choose;
      Lock();
      var ok, p := Search(req, framesLeft);
      if !ok { return Panic; }
      Unlock();
      r := Ret(p);
    }

    // --------------------------------------------------------------- kfree

    // Takes minor k out of major i: the list stores of kfree.
    method UnlinkMinor(maj: int, min: int, ghost i: int, ghost k: int)
      requires Valid() && Listed(layout, i, k)
      requires maj == layout[i].base && min == layout[i].chunks[k].addr
      modifies `mem, `inuse
      ensures inuse == old(inuse) - layout[i].chunks[k].size
      ensures |mem| == MEMORY_SIZE
      ensures Unlinked(old(mem), mem, layout[i], k, PrevBase(layout, i), NextBase(layout, i))
      ensures InMemory(min, MINOR_SIZE) && MinorAt(mem, min).magic == LIBALLOC_DEAD
    {
      hide MajorAt, MinorAt, MajorOf, MinorOf, Unlink, Image, Sane, Usage, WellPlaced;
      ghost var b := layout[i];
      UnlinkNeighbours(State(), mem, i, k);
      UnlinkHeaders(b, k, PrevBase(layout, i), NextBase(layout, i));
      var mn := MinorAt(mem, min);
      inuse := inuse - mn.size;
      var h := MajorAt(mem, maj);
      StoreMajor(maj, h.(usage := h.usage - (mn.size + MINOR_SIZE)));
      StoreMinor(min, mn.(magic := LIBALLOC_DEAD));
      if mn.next != 0 {
        var a := MinorAt(mem, mn.next);
        StoreMinor(mn.next, a.(prev := mn.prev));
      }
      if mn.prev != 0 {
        var a := MinorAt(mem, mn.prev);
        StoreMinor(mn.prev, a.(next := mn.next));
      }
      if mn.prev == 0 {
        h := MajorAt(mem, maj);
        StoreMajor(maj, h.(first := mn.next));
      }
    }

    // Takes the emptied major i off the list of majors.
    method ReleaseMajor(maj: int, ghost l: seq<Block>, ghost m0: seq<Byte>, ghost i: int)
      requires l == layout && Sane(HeapState(l, bestBet, brk)) && |m0| == MEMORY_SIZE && Image(m0, l)
      requires 0 <= i < |l| && maj == l[i].base && memRoot == l[0].base
      requires SameOutside(m0, mem, l[i].base, l[i].pages * PAGE_SIZE)
      requires MajorAt'(mem, maj, MajorOf(l[i].(chunks := []), PrevBase(l, i), NextBase(l, i)))
      modifies `mem, `memRoot, `bestBet, `held
      ensures |mem| == MEMORY_SIZE && Image(mem, Delete(l, i))
      ensures held == old(held) - l[i].pages * PAGE_SIZE
      ensures memRoot == if |l| == 1 then 0 else Delete(l, i)[0].base
      ensures bestBet == if old(bestBet) == maj then 0 else old(bestBet)
      ensures forall x :: 0 <= x < MEMORY_SIZE && !DropTouches(l, i, x) ==> mem[x] == m0[x]
    {
      hide MajorAt, MinorAt, MajorOf, Image, Sane, Usage, WellPlaced, InMajor, Sound, InUse, Allocated;
      ghost var s := HeapState(l, bestBet, brk);
      BasesApart(s, m0, i);
      if 0 < i { SameHeaders(m0, mem, l[i - 1].base); }
      if i + 1 < |l| { SameHeaders(m0, mem, l[i + 1].base); }
      var h := MajorAt(mem, maj);
      MajorOfFields(l[i].(chunks := []), PrevBase(l, i), NextBase(l, i));
      if memRoot == maj { memRoot := h.next; }
      if bestBet == maj { bestBet := 0; }
      if h.prev != 0 {
        var p := MajorAt(mem, h.prev);
        MajorInside(s, i - 1);
        StoreMajor(h.prev, p.(next := h.next));
        MajorOfFields(l[i - 1], PrevBase(l, i - 1), maj);
        MajorOfFields(l[i - 1], PrevBase(l, i - 1), h.next);
      }
      if h.next != 0 {
        var n := MajorAt(mem, h.next);
        MajorInside(s, i + 1);
        StoreMajor(h.next, n.(prev := h.prev));
        MajorOfFields(l[i + 1], maj, NextBase(l, i + 1));
        MajorOfFields(l[i + 1], h.prev, NextBase(l, i + 1));
      }
      held := held - h.size;
      InBoundsOfSane(s, m0);
      DropImage(m0, mem, l, i);
    }

    // Neither list nor total is changed.
    twostate predicate ListsUnchanged()
      reads this
    {
      && mem == old(mem) && State() == old(State())
      && memRoot == old(memRoot) && inuse == old(inuse) && held == old(held)
    }

    // What is counted when a pointer does not lead to a live header.
    method NoteBadMagic(magic: int)
      modifies `errors, `overruns
      ensures errors == old(errors) + 1
      ensures overruns == if Overrun(magic) then old(overruns) + 1 else old(overruns)
    {
      errors := errors + 1;
      if Overrun(magic) {
        overruns := overruns + 1;
      }
    }

    // Everything kfree does to the lists, for the live minor k of major i at min.
    method FreeMinor(min: int, ghost i: int, ghost k: int)
      requires Valid() && Listed(layout, i, k) && min == layout[i].chunks[k].addr
      modifies `mem, `memRoot, `bestBet, `inuse, `held, `layout
      ensures Valid() && State() == AfterFree(old(State()), i, k)
      ensures KeptBut(old(mem), mem, old(layout), old(brk), brk, i, k)
      ensures |old(layout)[i].chunks| != 1 ==> Bogus(mem, PayloadOf(min))
    {
      hide MajorAt, MinorAt, MajorOf, MinorOf, Unlink, Image, Sane, Usage, WellPlaced, Unlinked, InUse,
           Allocated, SameOutside, KeptBut, Delete;
      ghost var s, m0, l, b := State(), mem, layout, layout[i];
      MinorHeader(s, mem, i, k);
      BlockOfMinor(b, k);
      BetOfSane(s);
      FreeKeepsGood(s, i, k);
      TotalsOfRelease(l, i, k);
      var maj := MinorAt(mem, min).block;
      UnlinkMinor(maj, min, i, k);
      DeadPointer(s, m0, mem, i, k);
      FinishUnlink(s, m0, mem, i, k);
      if MajorAt(mem, maj).first == 0 {
        ReleaseMajor(maj, l, m0, i);
        layout := Delete(l, i);
        DropKeepsBodies(m0, mem, s, i, k);
      } else {
        layout := l[i := Unlink(b, k)];
        if bestBet != 0 {
          ghost var j := IndexOf(l, bestBet);
          HeaderOf(mem, layout, i);
          HeaderOf(mem, layout, j);
          var best, mine := MajorAt(mem, bestBet), MajorAt(mem, maj);
          if Signed(mine.size - mine.usage) > Signed(best.size - best.usage) {
            bestBet := maj;
          }
        }
      }
    }

    /** Freeing a live pointer takes its minor, and its major if that is emptied, out of
        the lists; freeing NULL or a pointer without the magic number changes neither
        list nor total. */
    method Kfree(ptr: int, ghost i: int, ghost k: int)
      requires Valid() && (ptr == 0 || Points(layout, i, k, ptr) || Bogus(mem, ptr))
      modifies this
      ensures Valid() && interrupts == old(interrupts)
      ensures old(Points(layout, i, k, ptr)) ==>
        && State() == AfterFree(old(State()), i, k) && KeptBut(old(mem), mem, old(layout), old(brk), brk, i, k)
      ensures old(Points(layout, i, k, ptr)) && |old(layout)[i].chunks| != 1 ==> Bogus(mem, ptr)
      ensures !old(Points(layout, i, k, ptr)) ==> ListsUnchanged()
      ensures warnings == if ptr == 0 then old(warnings) + 1 else old(warnings)
      ensures errors == if ptr == 0 || old(Points(layout, i, k, ptr)) then old(errors) else old(errors) + 1
      ensures overruns ==
        if ptr != 0 && !old(Points(layout, i, k, ptr)) && Overrun(MagicOf(old(mem), ptr)) then old(overruns) + 1
        else old(overruns)
    {
      hide MajorAt, MinorAt, Image, Sane, AfterFree, KeptBut, InUse, Allocated;
      ghost var live := Points(layout, i, k, ptr);
      if live { UnalignUndoesAlign(State(), mem, i, k); }
      if ptr == 0 {
        warnings := warnings + 1;
        return;
      }
      var min := Unaligned(mem, ptr) - MINOR_SIZE;
      Lock();
      var magic := MinorAt(mem, min).magic;
      if magic != LIBALLOC_MAGIC {
        NoteBadMagic(magic);
      } else {
        FreeMinor(min, i, k);
      }
      Unlock();
    }

    // ------------------------------------------------------ krealloc, kcalloc

    // liballoc_memcpy: whole words first, then the bytes that are left.
    method Copy(dst: int, src: int, n: int)
      requires |mem| == MEMORY_SIZE && InMemory(dst, n) && InMemory(src, n) && Apart(dst, n, src, n)
      requires InMajor(layout, dst, n)
      modifies `mem
      ensures SameOutside(old(mem), mem, dst, n)
      ensures forall x :: dst <= x < dst + n ==> mem[x] == old(mem)[x - dst + src]
    {
      hide InMajor;
      var d, s, left := dst, src, n;
      while left >= 4
        invariant 0 <= left <= n && d == dst + (n - left) && s == src + (n - left)
        invariant SameOutside(old(mem), mem, dst, n - left)
        invariant forall x :: dst <= x < d ==> mem[x] == old(mem)[x - dst + src]
      {
        ghost var m := mem;
        mem := Put(mem, d, mem[s..s + 4]);
        forall x | d <= x < d + 4 ensures mem[x] == old(mem)[x - dst + src] {
          assert m[s..s + 4][x - d] == m[x - dst + src];
        }
        d, s, left := d + 4, s + 4, left - 4;
      }
      while left > 0
        invariant 0 <= left <= n && d == dst + (n - left) && s == src + (n - left)
        invariant SameOutside(old(mem), mem, dst, n - left)
        invariant forall x :: dst <= x < d ==> mem[x] == old(mem)[x - dst + src]
      {
        mem := mem[d := mem[s]];
        d, s, left := d + 1, s + 1, left - 1;
      }
    }

    // liballoc_memset to zero.
    method Clear(dst: int, n: int)
      requires |mem| == MEMORY_SIZE && InMemory(dst, n) && InMajor(layout, dst, n)
      modifies `mem
      ensures SameOutside(old(mem), mem, dst, n)
      ensures forall x :: dst <= x < dst + n ==> mem[x] == 0
    {
      var i := 0;
      while i < n
        invariant 0 <= i <= n && SameOutside(old(mem), mem, dst, i)
        invariant forall x :: dst <= x < dst + i ==> mem[x] == 0
      {
        mem := mem[dst + i := 0];
        i := i + 1;
      }
    }

    // The part of krealloc that moves minor k of major i: allocate, copy, free.
    method Move(ptr: int, realSize: int, size: int, framesLeft: bool, ghost i: int, ghost k: int)
      returns (r: Outcome)
      requires Valid() && Points(layout, i, k, ptr)
      requires realSize == layout[i].chunks[k].req && realSize < size <= MAX_REQUEST
      modifies this
      ensures r == Panic <==> old(Grows(State(), size)) && !(framesLeft && CanGrow(old(State()), size))
      ensures r.Ret? ==>
        && Valid() && interrupts == old(interrupts)
        && State() == AfterMove(old(State()), size, i, k) && r.p == Returned(old(State()), size)
        && KeptBut(old(mem), mem, old(layout), old(brk), brk, i, k)
        && MovedBytes(old(mem), mem, ptr, r.p, realSize)
    {
      hide MajorAt, MinorAt, Image, Sane, AfterMalloc, AfterFree, Returned, PayloadOf, InUse, Allocated,
           Kept, KeptBut, Choose, GapFor, Grows, NoneEmpty, InMajor, Sound;
      ghost var s, m0, c := State(), mem, layout[i].chunks[k];
      BetOfSane(s);
      MallocKeepsMinors(s, size, i, k);
      BetAfterMalloc(s, size);
      UnalignUndoesAlign(s, mem, i, k);
      r := Kmalloc(size, framesLeft);
      if r == Panic { return; }
      ghost var m1 := mem;
      ghost var j, n, k' := Choose(s, size).index, GapFor(s, size), MovedTo(s, size, i, k);
      CanCopy(State(), mem, i, k', j, n);
      Copy(r.p, ptr, realSize);
      ghost var m2 := mem;
      SameOutsideWider(m1, m2, r.p, c.req, size);
      PayloadWrite(State(), m1, m2, j, n);
      BrkAfterFree(State(), i, k');
      Kfree(ptr, i, k');
      KeptThrough(s, m0, m1, m2, mem, size, i, k);
    }

    // krealloc has to allocate.
    ghost predicate Allocates(ptr: int, size: int, i: int, k: int)
      reads `layout
    {
      size != 0 && (ptr == 0 || (Points(layout, i, k, ptr) && size > layout[i].chunks[k].req))
    }

    // krealloc has returned p.
    twostate predicate Reallocated(ptr: int, size: int, i: int, k: int, p: int)
      requires old(Valid())
      reads this
    {
      var s := old(State());
      if !old(Points(layout, i, k, ptr)) then
        if old(Allocates(ptr, size, i, k)) then
          State() == AfterMalloc(s, size) && p == Returned(s, size) && Kept(old(mem), mem, old(layout), old(brk), brk)
        else
          p == 0 && ListsUnchanged() && (ptr != 0 ==> errors == old(errors) + 1)
      else if size == 0 then
        p == 0 && State() == AfterFree(s, i, k) && KeptBut(old(mem), mem, old(layout), old(brk), brk, i, k)
      else if !old(Allocates(ptr, size, i, k)) then
        && p == ptr && State() == s.(layout := Resized(old(layout), i, k, size))
        && Kept(old(mem), mem, old(layout), old(brk), brk)
      else
        && State() == AfterMove(s, size, i, k) && p == Returned(s, size)
        && KeptBut(old(mem), mem, old(layout), old(brk), brk, i, k)
        && MovedBytes(old(mem), mem, ptr, p, old(layout)[i].chunks[k].req)
    }

    /** krealloc: of a live pointer the first min(old, new) bytes are kept, in place if
        the request does not grow, and no other live payload is touched. */
    method Krealloc(ptr: int, size: int, framesLeft: bool, ghost i: int, ghost k: int) returns (r: Outcome)
      requires Valid() && 0 <= size <= MAX_REQUEST
      requires ptr == 0 || Points(layout, i, k, ptr) || Bogus(mem, ptr)
      modifies this
      ensures r == Panic <==>
        old(Allocates(ptr, size, i, k)) && old(Grows(State(), size)) && !(framesLeft && CanGrow(old(State()), size))
      ensures r.Ret? ==> Valid() && interrupts == old(interrupts) && Reallocated(ptr, size, i, k, r.p)
    {
      hide MajorAt, MinorAt, Image, Sane, AfterMalloc, AfterFree, AfterMove, Returned, PayloadOf, InUse,
           Allocated, Kept, KeptBut, Choose, Grows, NoneEmpty, MovedBytes, Resized;
      if Points(layout, i, k, ptr) { UnalignUndoesAlign(State(), mem, i, k); }
      if size == 0 {
        Kfree(ptr, i, k);
        return Ret(0);
      }
      if ptr == 0 {
        r := Kmalloc(size, framesLeft);
        return;
      }
      var min := Unaligned(mem, ptr) - MINOR_SIZE;
      Lock();
      var h := MinorAt(mem, min);
      if h.magic != LIBALLOC_MAGIC {
        NoteBadMagic(h.magic);
        Unlock();
        return Ret(0);
      }
      var realSize := h.req;
      if realSize >= size {
        ShrinkMinor(min, size, i, k);
        Unlock();
        return Ret(ptr);
      }
      Unlock();
      r := Move(ptr, realSize, size, framesLeft, i, k);
    }

    // Notes the smaller request of minor k of major i.
    method ShrinkMinor(min: int, size: int, ghost i: int, ghost k: int)
      requires Valid() && Listed(layout, i, k) && min == layout[i].chunks[k].addr
      requires 0 <= size <= layout[i].chunks[k].req
      modifies `mem, `layout
      ensures Valid() && layout == Resized(old(layout), i, k, size)
      ensures Kept(old(mem), mem, old(layout), old(brk), brk)
    {
      hide MajorAt, MinorAt, MinorOf, Image, Sane, InUse, Allocated, Kept, NoneEmpty, Resized;
      ghost var s, m0 := State(), mem;
      MinorHeader(s, mem, i, k);
      MinorFieldsOf(s, i, k, size);
      var h := MinorAt(mem, min);
      MinorInside(s, i, k);
      StoreMinor(min, h.(req := size));
      layout := Resized(layout, i, k, size);
      FinishResize(s, m0, mem, i, k, size);
    }

    /** kcalloc: the bytes of the (32-bit) product are zero, and no other minor is touched. */
    method Kcalloc(count: int, size: int, framesLeft: bool) returns (r: Outcome)
      requires Valid() && 0 <= count && 0 <= size && Total(count, size) <= MAX_REQUEST
      modifies this
      ensures var n := Total(count, size);
        && (r == Panic <==> old(Grows(State(), n)) && !(framesLeft && CanGrow(old(State()), n)))
        && (r.Ret? ==>
              && Valid() && interrupts == old(interrupts) && |mem| == MEMORY_SIZE && InMemory(r.p, n)
              && State() == AfterMalloc(old(State()), n) && r.p == Returned(old(State()), n)
              && Kept(old(mem), mem, old(layout), old(brk), brk)
              && forall x :: r.p <= x < r.p + n ==> mem[x] == 0)
      ensures r.Ret? && count * size <= MAX_REQUEST ==>
        && State() == AfterMalloc(old(State()), count * size) && r.p == Returned(old(State()), count * size)
        && InMemory(r.p, count * size) && |mem| == MEMORY_SIZE
        && forall x :: r.p <= x < r.p + count * size ==> mem[x] == 0
    {
      hide MajorAt, MinorAt, Image, Sane, AfterMalloc, Returned, PayloadOf, InUse,
           Allocated, Kept, KeptBut, Choose, GapFor, Grows, NoneEmpty;
      ghost var s, m0 := State(), mem;
      var n := Total(count, size);
      BetOfSane(s);
      MallocKeepsMinors(s, n, 0, 0);
      r := Kmalloc(n, framesLeft);
      if r == Panic { return; }
      ghost var m1, i, k := mem, Choose(s, n).index, GapFor(s, n);
      UnalignUndoesAlign(State(), mem, i, k);
      MinorInside(State(), i, k);
      Clear(r.p, n);
      PayloadWrite(State(), m1, mem, i, k);
      KeptByOther(s, m0, m1, mem, n);
    }
  }

  // The n bytes from a on lie in a single major.
  ghost predicate InMajor(l: seq<Block>, a: int, n: int) {
    exists i :: 0 <= i < |l| && l[i].base <= a && a + n <= Limit(l[i])
  }

  lemma Inside(l: seq<Block>, i: int, a: int, n: int)
    requires 0 <= i < |l| && l[i].base <= a && a + n <= Limit(l[i])
    ensures InMajor(l, a, n)
  {
  }

  lemma InsideMore(l: seq<Block>, b: Block, a: int, n: int)
    requires InMajor(l, a, n)
    ensures InMajor(l + [b], a, n)
  {
    var i :| 0 <= i < |l| && l[i].base <= a && a + n <= Limit(l[i]);
    Inside(l + [b], i, a, n);
  }

  lemma InsideLess(l: seq<Block>, a: int, n: int, more: int)
    requires InMajor(l, a, more) && n <= more
    ensures InMajor(l, a, n)
  {
  }

  lemma MajorInside(s: HeapState, i: int)
    requires Sane(s) && 0 <= i < |s.layout|
    ensures InMajor(s.layout, s.layout[i].base, MAJOR_SIZE)
  {
    assert WellPlaced(s.layout[i]);
    Inside(s.layout, i, s.layout[i].base, MAJOR_SIZE);
  }

  // The header of a minor, and its payload.
  lemma MinorInside(s: HeapState, i: int, k: int)
    requires Sane(s) && Listed(s.layout, i, k)
    ensures InMajor(s.layout, s.layout[i].chunks[k].addr, MINOR_SIZE)
    ensures var c := s.layout[i].chunks[k];
      && InMajor(s.layout, PayloadOf(c.addr), c.req) && 0 <= c.req
      && BodyOf(c) <= PayloadOf(c.addr) && PayloadOf(c.addr) + c.req <= EndOf(c)
  {
    var b, c := s.layout[i], s.layout[i].chunks[k];
    assert WellPlaced(b) && ChunkOk(b, c);
    PayloadInBody(c);
    Inside(s.layout, i, c.addr, MINOR_SIZE);
    Inside(s.layout, i, PayloadOf(c.addr), c.req);
  }

  // A wrong magic number of which one to three low bytes are right.
  predicate Overrun(magic: int) {
    || magic % 0x100_0000 == LIBALLOC_MAGIC % 0x100_0000
    || magic % 0x1_0000 == LIBALLOC_MAGIC % 0x1_0000
    || magic % 0x100 == LIBALLOC_MAGIC % 0x100
  }

  /** That is no more than that its lowest byte, the first one in memory, is right. */
  lemma OverrunIff(magic: Word32)
    ensures Overrun(magic) <==> Bytes(magic, 4)[0] == 0xDE
  {
    LowByteStays(magic, 0x100);
    LowByteStays(magic, 0x1_0000);
  }

  lemma LowByteStays(x: nat, n: nat)
    requires n == 0x100 || n == 0x1_0000
    ensures x % (0x100 * n) % 0x100 == x % 0x100
  {
    if n == 0x100 { LowByteOf(0x100 * (x / 0x1_0000), x % 0x1_0000); }
    else { LowByteOf(0x1_0000 * (x / 0x100_0000), x % 0x100_0000); }
  }

  lemma LowByteOf(q: nat, r: nat)
    ensures (0x100 * q + r) % 0x100 == r % 0x100
  {
  }

  // nobj * size as kcalloc computes it.
  function Total(count: int, size: int): (n: int)
    ensures 0 <= n < WORD_RANGE && (0 <= count * size < WORD_RANGE ==> n == count * size)
  {
    (count * size) % WORD_RANGE
  }

  // Byte j of element a is among the first n.
  predicate ElementFits(n: int, size: int, a: int, j: int) { a * size + j < n }

  /** All elements fit in what kcalloc asks for if and only if the product fits in a word. */
  lemma ElementsFitIff(count: nat, size: nat)
    ensures (forall a, j :: 0 <= a < count && 0 <= j < size ==> ElementFits(Total(count, size), size, a, j))
       <==> count * size < WORD_RANGE
  {
    var n := Total(count, size);
    if count * size < WORD_RANGE {
      forall a, j | 0 <= a < count && 0 <= j < size ensures ElementFits(n, size, a, j) {
        ElementInside(count, size, a, j);
      }
    } else {
      ElementLast(count, size);
      assert !ElementFits(n, size, count - 1, size - 1);
    }
  }

  lemma ElementInside(count: int, size: int, a: int, j: int)
    requires 0 <= a < count && 0 <= j < size
    ensures 0 <= a * size && a * size + j < count * size
  {
    assert (a + 1) * size <= count * size;
  }

  lemma ElementLast(count: nat, size: nat)
    requires count * size > 0
    ensures 0 < count && 0 < size && (count - 1) * size + (size - 1) == count * size - 1
  {
  }

  // Element a of an array of zeroes from p on is all zero.
  lemma ElementIsZero(m: seq<Byte>, p: int, count: int, size: int, a: int, j: int)
    requires 0 <= p && p + count * size <= |m| && forall x :: p <= x < p + count * size ==> m[x] == 0
    requires 0 <= a < count && 0 <= j < size
    ensures 0 <= p + a * size + j < |m| && m[p + a * size + j] == 0
  {
    ElementInside(count, size, a, j);
  }

  // The majors of s, and the one acquired for the request if there is one.
  function Extended(s: HeapState, req: int, grown: bool): seq<Block> {
    if grown then s.layout + [Fresh(s.brk, req)] else s.layout
  }

  // Every header that shares no byte with [a, a + n) reads the same.
  ghost predicate HeadersApart(m: seq<Byte>, m': seq<Byte>, a: int, n: int)
    requires |m'| == |m|
  {
    && (forall b {:trigger MinorAt(m', b)} ::
          0 <= b && b + MINOR_SIZE <= |m| && Apart(a, n, b, MINOR_SIZE) ==> MinorAt(m', b) == MinorAt(m, b))
    && (forall b {:trigger MajorAt(m', b)} ::
          0 <= b && b + MAJOR_SIZE <= |m| && Apart(a, n, b, MAJOR_SIZE) ==> MajorAt(m', b) == MajorAt(m, b))
  }

  lemma OtherHeaders(m: seq<Byte>, m': seq<Byte>, a: int, n: int)
    requires SameOutside(m, m', a, n)
    ensures HeadersApart(m, m', a, n)
  {
    forall b | 0 <= b && b + MINOR_SIZE <= |m| && Apart(a, n, b, MINOR_SIZE)
      ensures MinorAt(m', b) == MinorAt(m, b) && MajorAt(m', b) == MajorAt(m, b)
    {
      SameHeaders(m, m', b);
    }
  }

  // Where a fresh major lies.
  lemma GrowthFacts(s: HeapState, req: int)
    requires Sane(s) && 0 <= req
    ensures var b := Fresh(s.brk, req);
      && KHEAP_START <= s.brk <= KHEAP_END && PAGE_COUNT <= b.pages && Usage(b) == MAJOR_SIZE
      && forall i :: 0 <= i < |s.layout| ==> s.layout[i].base + PAGE_SIZE <= s.brk
  {
  }

  lemma GrowKeepsSane(s: HeapState, req: int)
    requires Sane(s) && 0 <= req && CanGrow(s, req)
    ensures var b := Fresh(s.brk, req); Sane(HeapState(s.layout + [b], s.bet, Limit(b)))
  {
    var b := Fresh(s.brk, req);
    var l' := s.layout + [b];
    forall i | 0 <= i < |l'| ensures Within(l'[i], Limit(b)) && WellPlaced(l'[i]) {
      if i < |s.layout| { assert Within(s.layout[i], s.brk); }
    }
    forall i, j | 0 <= i < j < |l'| ensures Limit(l'[i]) <= l'[j].base {
      assert Within(s.layout[i], s.brk);
    }
    if s.bet != 0 { assert l'[IndexOf(s.layout, s.bet)].base == s.bet; }
  }

  lemma FinishGrowth(m: seq<Byte>, m': seq<Byte>, s: HeapState, req: int)
    requires Sane(s) && |m| == MEMORY_SIZE && |m'| == |m| && Image(m, s.layout)
    requires 0 <= req && CanGrow(s, req)
    requires var b := Fresh(s.brk, req); var l := s.layout;
      && MajorAt'(m', b.base, MajorOf(b, if l == [] then 0 else l[|l| - 1].base, 0))
      && (l != [] ==> MajorAt'(m', l[|l| - 1].base, MajorOf(l[|l| - 1], PrevBase(l, |l| - 1), b.base)))
      && forall x :: 0 <= x < |m| && !AppendTouches(l, b, x) ==> m'[x] == m[x]
    ensures var b := Fresh(s.brk, req); var l' := s.layout + [b];
      && Sane(HeapState(l', s.bet, Limit(b))) && Image(m', l') && Kept(m, m', s.layout, s.brk, Limit(b))
      && InUse(l') == InUse(s.layout) && Allocated(l') == Allocated(s.layout) + b.pages * PAGE_SIZE
  {
    hide MajorAt, MinorAt, MajorOf, Image;
    var b, l := Fresh(s.brk, req), s.layout;
    InBoundsOfSane(s, m);
    GrowKeepsSane(s, req);
    AppendImage(m, m', l, b);
    TotalsOfConcat(l, [b]);
    assert InUse([b]) == 0 && Allocated([b]) == b.pages * PAGE_SIZE;
    forall i, k | Listed(l, i, k) ensures SameOn(m, m', BodyOf(l[i].chunks[k]), l[i].chunks[k].size) {
      AppendMissesBodies(s, b, i, k);
    }
  }

  lemma AppendMissesBodies(s: HeapState, b: Block, i: int, k: int)
    requires Sane(s) && b.base == s.brk && Listed(s.layout, i, k)
    ensures forall x :: BodyOf(s.layout[i].chunks[k]) <= x < EndOf(s.layout[i].chunks[k]) ==> !AppendTouches(s.layout, b, x)
  {
  }

  lemma PlaceFillsUp(s: HeapState, l: seq<Block>, i: int, k: int, req: int)
    requires NoneEmpty(s.layout) && 0 <= i < |l| && 0 <= k <= |l[i].chunks|
    requires l == s.layout || (l == s.layout + [Fresh(s.brk, req)] && i == |s.layout|)
    ensures NoneEmpty(Place(l, i, k, req))
  {
  }

  lemma BetOfSane(s: HeapState)
    requires Sane(s)
    ensures BetListed(s.layout, s.bet) && 0 < s.brk
  {
  }

  lemma BetMovesTo(s: HeapState, i: int)
    requires Sane(s) && 0 <= i < |s.layout|
    ensures Sane(s.(bet := s.layout[i].base))
  {
  }

  lemma NothingTouched(m: seq<Byte>, s: HeapState)
    ensures Kept(m, m, s.layout, s.brk, s.brk)
  {
  }

  lemma KeptTwice(m: seq<Byte>, m': seq<Byte>, m'': seq<Byte>, l: seq<Block>, l': seq<Block>, lo: int, mid: int, hi: int)
    requires Kept(m, m', l, lo, mid) && Kept(m', m'', l', mid, hi) && lo <= mid <= hi
    requires l' == l || exists n :: l' == l + [Fresh(lo, n)] && Limit(Fresh(lo, n)) <= mid
    ensures Kept(m, m'', l, lo, hi)
  {
    forall i, k | Listed(l, i, k) ensures SameOn(m, m'', BodyOf(l[i].chunks[k]), l[i].chunks[k].size) {
      assert Listed(l', i, k);
      assert SameOn(m, m', BodyOf(l[i].chunks[k]), l[i].chunks[k].size);
      assert SameOn(m', m'', BodyOf(l'[i].chunks[k]), l'[i].chunks[k].size);
    }
    ConfinedTwice(m, m', m'', l, l', lo, mid, hi);
  }

  lemma ConfinedTwice(m: seq<Byte>, m': seq<Byte>, m'': seq<Byte>, l: seq<Block>, l': seq<Block>, lo: int, mid: int, hi: int)
    requires Confined(m, m', l, lo, mid) && Confined(m', m'', l', mid, hi) && lo <= mid <= hi
    requires forall x :: InBlock(l', x) ==> InBlock(l, x) || lo <= x < mid
    ensures Confined(m, m'', l, lo, hi)
  {
    hide InBlock;
  }

  lemma InBoundsOfSane(s: HeapState, m: seq<Byte>)
    requires Sane(s) && |m| == MEMORY_SIZE
    ensures InBounds(m, s.layout)
  {
  }

  lemma PlaceKeepsSane(s: HeapState, i: int, k: int, req: int)
    requires Sane(s) && 0 <= i < |s.layout| && 0 <= k <= |s.layout[i].chunks| && 0 <= req
    requires Gap(s.layout[i], k) >= Need(req)
    ensures Sane(s.(layout := Place(s.layout, i, k, req)))
  {
    PlaceKeepsSound(s.layout, i, k, req);
    var l' := Place(s.layout, i, k, req);
    forall j | 0 <= j < |l'| ensures Within(l'[j], s.brk) {
      assert Within(s.layout[j], s.brk);
    }
    if s.bet != 0 { assert l'[IndexOf(s.layout, s.bet)].base == s.bet; }
  }

  // The stores are done: the memory holds the new layout.
  lemma FinishPlace(m: seq<Byte>, m': seq<Byte>, s: HeapState, i: int, k: int, req: int)
    requires Sane(s) && |m| == MEMORY_SIZE && Image(m, s.layout)
    requires 0 <= i < |s.layout| && 0 <= k <= |s.layout[i].chunks| && 0 <= req
    requires Gap(s.layout[i], k) >= Need(req)
    requires Carved(m, m', s.layout[i], k, req, PrevBase(s.layout, i), NextBase(s.layout, i))
    ensures var l' := Place(s.layout, i, k, req);
      && Sane(s.(layout := l')) && Image(m', l') && Kept(m, m', s.layout, s.brk, s.brk)
      && |l'| == |s.layout| && l'[0].base == s.layout[0].base
      && InUse(l') == InUse(s.layout) + Padded(req) && Allocated(l') == Allocated(s.layout)
  {
    hide Carved, Image, BodiesKept;
    InBoundsOfSane(s, m);
    PlaceImage(m, m', s.layout, i, k, req);
    PlaceKeepsBodies(m, m', s.layout, i, k, req);
    TotalsOfPlace(s.layout, i, k, req);
    PlaceKeepsSane(s, i, k, req);
    PlaceIsConfined(m, m', s, i, k, req);
  }

  lemma PlaceIsConfined(m: seq<Byte>, m': seq<Byte>, s: HeapState, i: int, k: int, req: int)
    requires Sane(s) && 0 <= i < |s.layout| && 0 <= k <= |s.layout[i].chunks| && 0 <= req
    requires Gap(s.layout[i], k) >= Need(req)
    requires Carved(m, m', s.layout[i], k, req, PrevBase(s.layout, i), NextBase(s.layout, i))
    ensures Confined(m, m', s.layout, s.brk, s.brk)
  {
    var b := s.layout[i];
    assert WellPlaced(b);
    hide Carved, WellPlaced;
    CarveStaysInside(m, m', b, k, req, PrevBase(s.layout, i), NextBase(s.layout, i));
    InsideIsConfined(m, m', s.layout, i, b.base, b.pages * PAGE_SIZE, s.brk);
  }

  // Where the headers around gap k of major i are, what they hold, and that all
  // of it and of what the stores will put there fits in 32 bits.
  lemma GapNeighbours(s: HeapState, m: seq<Byte>, i: int, k: int, req: int)
    requires Sane(s) && |m| == MEMORY_SIZE && Image(m, s.layout)
    requires 0 <= i < |s.layout| && 0 <= k <= |s.layout[i].chunks| && 0 <= req
    requires Gap(s.layout[i], k) >= Need(req)
    ensures var b := s.layout[i]; var g := GapStart(b, k);
      && WellPlaced(b) && Limit(b) <= KHEAP_END && 0 < b.base && b.base + MAJOR_SIZE <= g
      && g + Need(req) <= GapEnd(b, k) <= Limit(b)
      && MajorAt(m, b.base) == MajorOf(b, PrevBase(s.layout, i), NextBase(s.layout, i))
      && MajorFits(MajorAt(m, b.base)) && MajorAt(m, b.base).usage == Usage(b)
      && MajorAt(m, b.base).first == (if b.chunks == [] then 0 else b.chunks[0].addr) && Is32(Usage(b) + Need(req))
      && (0 < k ==>
            var a := b.chunks[k - 1].addr;
            b.base + MAJOR_SIZE <= a && a + MINOR_SIZE <= g && b.chunks[k - 1].size >= Padded(0) &&
            MinorAt(m, a) == MinorOf(b, k - 1) && MinorFits(MinorOf(b, k - 1)) &&
            MinorOf(b, k - 1).size == b.chunks[k - 1].size &&
            MinorOf(b, k - 1).next == (if k == |b.chunks| then 0 else b.chunks[k].addr))
      && (k < |b.chunks| ==>
            var a := b.chunks[k].addr;
            g + Need(req) <= a && a + MINOR_SIZE <= Limit(b) &&
            MinorAt(m, a) == MinorOf(b, k) && MinorFits(MinorOf(b, k)))
  {
    hide MajorAt, MinorAt;
    var b := s.layout[i];
    assert Within(b, s.brk) && WellPlaced(b);
    assert ImageAt(m, s.layout, i);
    NewChunkFits(b, k, req);
    UsageOfCarve(b, k, req);
    MajorFields(s, i);
    CarveKeepsOrder(b, k, req);
    UsageWithinBlock(Carve(b, k, req));
    if 0 < k {
      assert ChunkOk(b, b.chunks[k - 1]) && ChunkImage(m, b, k - 1);
      MinorFields(b, k - 1);
    }
    if k < |b.chunks| {
      assert ChunkOk(b, b.chunks[k]) && ChunkImage(m, b, k);
      MinorFields(b, k);
    }
  }

  // What carving changes in the headers around the gap.
  lemma CarveHeaders(b: Block, k: int, req: int, prev: int, next: int)
    requires 0 <= k <= |b.chunks|
    ensures var b' := Carve(b, k, req); var g := GapStart(b, k); var h := MajorOf(b, prev, next);
      && |b'.chunks| == |b.chunks| + 1 && b'.chunks[k] == NewChunk(b, k, req)
      && MajorOf(b', prev, next) == h.(usage := h.usage + Need(req), first := if k == 0 then g else h.first)
      && MinorOf(b', k) == Minor(if k == 0 then 0 else b.chunks[k - 1].addr,
                                 if k == |b.chunks| then 0 else b.chunks[k].addr,
                                 b.base, LIBALLOC_MAGIC, Padded(req), req)
      && (0 < k ==> MinorOf(b', k - 1) == MinorOf(b, k - 1).(next := g))
      && (k < |b.chunks| ==> MinorOf(b', k + 1) == MinorOf(b, k).(prev := g))
  {
    UsageOfCarve(b, k, req);
  }

  // What the header of major i holds.
  lemma MajorHeader(s: HeapState, m: seq<Byte>, i: int)
    requires Sane(s) && |m| == MEMORY_SIZE && Image(m, s.layout) && 0 <= i < |s.layout|
    ensures var b := s.layout[i];
      && 0 < b.base && b.base + MAJOR_SIZE <= Limit(b) <= KHEAP_END
      && WellPlaced(b) && MajorAt(m, b.base) == MajorOf(b, PrevBase(s.layout, i), NextBase(s.layout, i))
      && (MajorAt(m, b.base).next == 0 <==> i + 1 == |s.layout|)
      && MajorAt(m, b.base).next == NextBase(s.layout, i)
      && MajorAt(m, b.base).size - MajorAt(m, b.base).usage == Free(b)
      && (MajorAt(m, b.base).first == 0 <==> b.chunks == [])
  {
    hide MajorAt, MinorAt;
    var b := s.layout[i];
    assert Within(b, s.brk) && WellPlaced(b) && ImageAt(m, s.layout, i);
    if i + 1 < |s.layout| { assert Within(s.layout[i + 1], s.brk); }
    if b.chunks != [] { assert ChunkOk(b, b.chunks[0]); }
  }

  // What the header of its minor k holds, and that no minor is at address 0.
  lemma MinorHeader(s: HeapState, m: seq<Byte>, i: int, k: int)
    requires Sane(s) && |m| == MEMORY_SIZE && Image(m, s.layout) && Listed(s.layout, i, k)
    ensures var b := s.layout[i];
      && 0 < b.chunks[k].addr <= MEMORY_SIZE - MINOR_SIZE && 0 <= b.chunks[k].size
      && MinorAt(m, b.chunks[k].addr) == MinorOf(b, k)
      && (k + 1 < |b.chunks| ==> 0 < b.chunks[k + 1].addr)
  {
    hide MajorAt, MinorAt;
    var b := s.layout[i];
    assert Within(b, s.brk) && WellPlaced(b) && ImageAt(m, s.layout, i);
    assert ChunkOk(b, b.chunks[k]) && ChunkImage(m, b, k);
    if k + 1 < |b.chunks| { assert ChunkOk(b, b.chunks[k + 1]); }
  }

  lemma MajorFields(s: HeapState, i: int)
    requires Sane(s) && 0 <= i < |s.layout|
    ensures MajorFits(MajorOf(s.layout[i], PrevBase(s.layout, i), NextBase(s.layout, i)))
  {
    var b := s.layout[i];
    assert Within(b, s.brk) && WellPlaced(b);
    if 0 < i { assert Within(s.layout[i - 1], s.brk) && WellPlaced(s.layout[i - 1]); }
    if i + 1 < |s.layout| { assert Within(s.layout[i + 1], s.brk) && WellPlaced(s.layout[i + 1]); }
    UsageWithinBlock(b);
    if b.chunks != [] { assert ChunkOk(b, b.chunks[0]); }
  }

  lemma MinorFields(b: Block, k: int)
    requires WellPlaced(b) && Limit(b) <= KHEAP_END && 0 <= k < |b.chunks|
    ensures MinorFits(MinorOf(b, k))
  {
  }

  // ------------------------------------------------------ facts about kfree

  // The counterpart of GapNeighbours for unlinking minor k of major i.
  lemma UnlinkNeighbours(s: HeapState, m: seq<Byte>, i: int, k: int)
    requires Sane(s) && |m| == MEMORY_SIZE && Image(m, s.layout) && Listed(s.layout, i, k)
    ensures var b := s.layout[i]; var a := b.chunks[k].addr; var n := |b.chunks|;
      && 0 < b.base && b.base + MAJOR_SIZE <= a && a + MINOR_SIZE <= Limit(b) <= KHEAP_END
      && MajorAt(m, b.base) == MajorOf(b, PrevBase(s.layout, i), NextBase(s.layout, i))
      && MajorFits(MajorAt(m, b.base)) && MinorAt(m, a) == MinorOf(b, k) && MinorFits(MinorOf(b, k))
      && 0 <= Usage(b) - MINOR_SIZE - b.chunks[k].size && 0 <= b.chunks[k].size
      && (0 < k ==>
            var p := b.chunks[k - 1].addr;
            0 < p && b.base + MAJOR_SIZE <= p && p + MINOR_SIZE <= a &&
            MinorAt(m, p) == MinorOf(b, k - 1) && MinorFits(MinorOf(b, k - 1)))
      && (k + 1 < n ==>
            var q := b.chunks[k + 1].addr;
            a + MINOR_SIZE <= q && q + MINOR_SIZE <= Limit(b) &&
            MinorAt(m, q) == MinorOf(b, k + 1) && MinorFits(MinorOf(b, k + 1)))
  {
    hide MajorAt, MinorAt;
    var b := s.layout[i];
    assert Within(b, s.brk) && WellPlaced(b) && ImageAt(m, s.layout, i);
    MajorFields(s, i);
    UsageOfUnlink(b, k);
    UnlinkKeepsOrder(b, k);
    UsageWithinBlock(Unlink(b, k));
    assert ChunkOk(b, b.chunks[k]) && ChunkImage(m, b, k);
    MinorFields(b, k);
    if 0 < k {
      assert ChunkOk(b, b.chunks[k - 1]) && ChunkImage(m, b, k - 1);
      MinorFields(b, k - 1);
    }
    if k + 1 < |b.chunks| {
      assert ChunkOk(b, b.chunks[k + 1]) && ChunkImage(m, b, k + 1);
      MinorFields(b, k + 1);
    }
  }

  // The UNALIGN macro: back to just behind the header.
  function Unaligned(m: seq<Byte>, ptr: int): int
    requires ALIGN_INFO <= ptr < |m|
  {
    var diff := m[ptr - ALIGN_INFO];
    if diff < ALIGNMENT + ALIGN_INFO then ptr - diff else ptr
  }

  // ptr is what the caller was given for minor k of major i.
  ghost predicate Points(l: seq<Block>, i: int, k: int, ptr: int) {
    Listed(l, i, k) && ptr == PayloadOf(l[i].chunks[k].addr)
  }

  // ptr leads to something that does not carry the magic number.
  ghost predicate Bogus(m: seq<Byte>, ptr: int) {
    && |m| == MEMORY_SIZE && MINOR_SIZE + ALIGNMENT + ALIGN_INFO <= ptr < MEMORY_SIZE
    && MagicOf(m, ptr) != LIBALLOC_MAGIC
  }

  // Where ptr, taken as a pointer to a payload, has its magic number.
  function MagicOf(m: seq<Byte>, ptr: int): int
    requires |m| == MEMORY_SIZE && MINOR_SIZE + ALIGNMENT + ALIGN_INFO <= ptr < MEMORY_SIZE
  {
    MinorAt(m, Unaligned(m, ptr) - MINOR_SIZE).magic
  }

  // A pointer that was freed, its major being there still, leads to no magic number any more.
  lemma DeadPointer(s: HeapState, m: seq<Byte>, m': seq<Byte>, i: int, k: int)
    requires Sane(s) && |m| == MEMORY_SIZE && Image(m, s.layout) && Listed(s.layout, i, k)
    requires Unlinked(m, m', s.layout[i], k, PrevBase(s.layout, i), NextBase(s.layout, i))
    requires InMemory(s.layout[i].chunks[k].addr, MINOR_SIZE)
    requires MinorAt(m', s.layout[i].chunks[k].addr).magic != LIBALLOC_MAGIC
    ensures Bogus(m', PayloadOf(s.layout[i].chunks[k].addr))
  {
    hide MajorAt, MinorAt, Image;
    var b, c := s.layout[i], s.layout[i].chunks[k];
    var x := PayloadOf(c.addr) - ALIGN_INFO;
    UnalignUndoesAlign(s, m, i, k);
    InfoUntouched(b, k);
    assert WellPlaced(b);
    assert m'[x] == m[x];
  }

  // The alignment byte is in no header next to it.
  lemma InfoUntouched(b: Block, k: int)
    requires WellPlaced(b) && 0 <= k < |b.chunks|
    ensures !UnlinkTouches(b, k, PayloadOf(b.chunks[k].addr) - ALIGN_INFO)
  {
    assert ChunkOk(b, b.chunks[k]);
    if k + 1 < |b.chunks| { assert EndOf(b.chunks[k]) <= b.chunks[k + 1].addr; }
    if 0 < k { assert EndOf(b.chunks[k - 1]) <= b.chunks[k].addr && ChunkOk(b, b.chunks[k - 1]); }
  }

  /** UNALIGN takes back exactly what ALIGN moved, so that a live pointer leads to its header. */
  lemma UnalignUndoesAlign(s: HeapState, m: seq<Byte>, i: int, k: int)
    requires Sane(s) && |m| == MEMORY_SIZE && Image(m, s.layout) && Listed(s.layout, i, k)
    ensures var c := s.layout[i].chunks[k]; var p := PayloadOf(c.addr);
      && MINOR_SIZE + ALIGNMENT + ALIGN_INFO <= p && 0 <= c.req && p + c.req <= EndOf(c) <= KHEAP_END
      && Unaligned(m, p) == BodyOf(c)
      && MinorAt(m, c.addr).magic == LIBALLOC_MAGIC && MinorAt(m, c.addr).req == c.req
  {
    hide MajorAt, MinorAt;
    var b := s.layout[i];
    assert Within(b, s.brk) && WellPlaced(b) && ImageAt(m, s.layout, i);
    assert ChunkOk(b, b.chunks[k]) && ChunkImage(m, b, k);
  }

  // No byte in a minor differs, nor one outside the majors but from lo up to hi.
  ghost predicate Kept(m: seq<Byte>, m': seq<Byte>, l: seq<Block>, lo: int, hi: int) {
    BodiesKept(m, m', l) && Confined(m, m', l, lo, hi)
  }

  ghost predicate KeptBut(m: seq<Byte>, m': seq<Byte>, l: seq<Block>, lo: int, hi: int, i: int, k: int) {
    BodiesKeptBut(m, m', l, i, k) && Confined(m, m', l, lo, hi)
  }

  ghost predicate Confined(m: seq<Byte>, m': seq<Byte>, l: seq<Block>, lo: int, hi: int) {
    |m'| == |m| && forall x :: 0 <= x < |m| && !InBlock(l, x) && !(lo <= x < hi) ==> m'[x] == m[x]
  }

  ghost predicate InBlock(l: seq<Block>, x: int) { InMajor(l, x, 1) }

  // Stores inside major i alone.
  lemma InsideIsConfined(m: seq<Byte>, m': seq<Byte>, l: seq<Block>, i: int, a: int, n: int, lo: int)
    requires 0 <= i < |l| && SameOutside(m, m', a, n) && l[i].base <= a && a + n <= Limit(l[i])
    ensures Confined(m, m', l, lo, lo)
  {
    forall x | a <= x < a + n ensures InBlock(l, x) { Inside(l, i, x, 1); }
  }

  ghost predicate BodiesKeptBut(m: seq<Byte>, m': seq<Byte>, l: seq<Block>, i: int, k: int) {
    forall j, n :: Listed(l, j, n) && (j, n) != (i, k) ==>
      SameOn(m, m', BodyOf(l[j].chunks[n]), l[j].chunks[n].size)
  }

  lemma BlockOfMinor(b: Block, k: int)
    requires 0 <= k < |b.chunks|
    ensures MinorOf(b, k).block == b.base
  {
  }

  lemma HeaderOf(m: seq<Byte>, l: seq<Block>, i: int)
    requires Image(m, l) && 0 <= i < |l|
    ensures 0 <= l[i].base && l[i].base + MAJOR_SIZE <= |m|
    ensures MajorAt(m, l[i].base) == MajorOf(l[i], PrevBase(l, i), NextBase(l, i))
    ensures MajorAt(m, l[i].base).size - MajorAt(m, l[i].base).usage == Free(l[i])
  {
    hide MajorAt, MinorAt;
    assert ImageAt(m, l, i);
  }

  // Minor k is unlinked: the major is in order, and unless it has become empty so is
  // the whole layout.
  lemma FinishUnlink(s: HeapState, m: seq<Byte>, m': seq<Byte>, i: int, k: int)
    requires Sane(s) && |m| == MEMORY_SIZE && Image(m, s.layout) && Listed(s.layout, i, k)
    requires Unlinked(m, m', s.layout[i], k, PrevBase(s.layout, i), NextBase(s.layout, i))
    ensures var l := s.layout; var b' := Unlink(l[i], k);
      && SameOutside(m, m', l[i].base, l[i].pages * PAGE_SIZE)
      && MajorAt'(m', l[i].base, MajorOf(b', PrevBase(l, i), NextBase(l, i)))
      && (MajorAt(m', l[i].base).first == 0 <==> |l[i].chunks| == 1)
      && b' == l[i].(chunks := b'.chunks) && (|l[i].chunks| == 1 ==> b'.chunks == [])
      && Image(m', l[i := b']) && KeptBut(m, m', s.layout, s.brk, s.brk, i, k)
      && l[i := b'][0].base == l[0].base
  {
    hide MajorAt, MinorAt;
    var l, b := s.layout, s.layout[i];
    assert Within(b, s.brk) && WellPlaced(b) && ImageAt(m, l, i);
    InBoundsOfSane(s, m);
    UnlinkImage(m, m', b, k, PrevBase(l, i), NextBase(l, i));
    UpdateImage(m, m', l, i, Unlink(b, k));
    assert ChunkOk(b, b.chunks[0]);
    if 1 < |b.chunks| { assert ChunkOk(b, b.chunks[1]); }
    UnlinkKeepsBodies(m, m', s, i, k);
  }

  lemma UnlinkKeepsBodies(m: seq<Byte>, m': seq<Byte>, s: HeapState, i: int, k: int)
    requires Sane(s) && |m| == MEMORY_SIZE && Listed(s.layout, i, k)
    requires Unlinked(m, m', s.layout[i], k, PrevBase(s.layout, i), NextBase(s.layout, i))
    requires SameOutside(m, m', s.layout[i].base, s.layout[i].pages * PAGE_SIZE)
    ensures BodiesKeptBut(m, m', s.layout, i, k)
  {
    hide MajorAt, MinorAt;
    var l := s.layout;
    forall j, n | Listed(l, j, n) && (j, n) != (i, k)
      ensures SameOn(m, m', BodyOf(l[j].chunks[n]), l[j].chunks[n].size)
    {
      var c := l[j].chunks[n];
      assert WellPlaced(l[j]) && ChunkOk(l[j], c);
      assert j < i ==> Limit(l[j]) <= l[i].base;
      assert i < j ==> Limit(l[i]) <= l[j].base;
      if j == i {
        forall x | BodyOf(c) <= x < EndOf(c) ensures !UnlinkTouches(l[i], k, x) {
          OutsideUnlink(l[i], k, n, x);
        }
      }
    }
  }

  lemma DropKeepsBodies(m: seq<Byte>, m': seq<Byte>, s: HeapState, i: int, k: int)
    requires Sane(s) && |m| == MEMORY_SIZE && |m'| == |m| && Listed(s.layout, i, k) && |s.layout[i].chunks| == 1
    requires forall x :: 0 <= x < MEMORY_SIZE && !DropTouches(s.layout, i, x) ==> m'[x] == m[x]
    ensures KeptBut(m, m', s.layout, s.brk, s.brk, i, k)
  {
    var l := s.layout;
    forall j, n | Listed(l, j, n) && (j, n) != (i, k)
      ensures SameOn(m, m', BodyOf(l[j].chunks[n]), l[j].chunks[n].size)
    {
      assert WellPlaced(l[j]) && ChunkOk(l[j], l[j].chunks[n]);
      DropKeeps(l, i, j);
    }
    forall x | 0 <= x < MEMORY_SIZE && !InBlock(l, x) ensures m'[x] == m[x] {
      if DropTouches(l, i, x) { DropsInside(l, i, x); }
    }
  }

  // What unlinking changes in the headers around minor k.
  lemma UnlinkHeaders(b: Block, k: int, prev: int, next: int)
    requires 0 <= k < |b.chunks|
    ensures var b' := Unlink(b, k); var n := |b.chunks|; var h := MajorOf(b, prev, next); var c := MinorOf(b, k);
      && c.prev == (if k == 0 then 0 else b.chunks[k - 1].addr)
      && c.next == (if k + 1 == n then 0 else b.chunks[k + 1].addr)
      && c.size == b.chunks[k].size && h.usage == Usage(b)
      && |b'.chunks| == n - 1
      && MajorOf(b', prev, next) ==
           h.(usage := h.usage - MINOR_SIZE - c.size, first := if k == 0 then c.next else h.first)
      && (0 < k ==> MinorOf(b', k - 1) == MinorOf(b, k - 1).(next := c.next))
      && (k + 1 < n ==> MinorOf(b', k) == MinorOf(b, k + 1).(prev := c.prev))
  {
    UsageOfUnlink(b, k);
  }

  lemma MajorOfFields(b: Block, prev: int, next: int)
    ensures MajorOf(b, prev, next) == Major(prev, next, b.pages, b.pages * PAGE_SIZE, Usage(b),
                                            if b.chunks == [] then 0 else b.chunks[0].addr)
  {
  }

  // Where the neighbours of major i are, and what their headers hold.
  lemma BasesApart(s: HeapState, m: seq<Byte>, i: int)
    requires Sane(s) && |m| == MEMORY_SIZE && Image(m, s.layout) && 0 <= i < |s.layout|
    ensures var l := s.layout;
      && 0 < l[i].base && l[i].base + MAJOR_SIZE <= Limit(l[i]) <= KHEAP_END && Sound(l)
      && (forall j :: 0 <= j < |l| && j != i ==> l[j].base != l[i].base)
      && (0 < i ==>
            0 < l[i - 1].base && l[i - 1].base + MAJOR_SIZE <= l[i].base &&
            MajorAt(m, l[i - 1].base) == MajorOf(l[i - 1], PrevBase(l, i - 1), l[i].base) &&
            MajorFits(MajorAt(m, l[i - 1].base)))
      && (i + 1 < |l| ==>
            Limit(l[i]) <= l[i + 1].base && l[i + 1].base + MAJOR_SIZE <= KHEAP_END &&
            MajorAt(m, l[i + 1].base) == MajorOf(l[i + 1], l[i].base, NextBase(l, i + 1)) &&
            MajorFits(MajorAt(m, l[i + 1].base)))
  {
    hide MajorAt, MinorAt;
    var l := s.layout;
    MajorHeader(s, m, i);
    if 0 < i { MajorHeader(s, m, i - 1); MajorFields(s, i - 1); }
    if i + 1 < |l| { MajorHeader(s, m, i + 1); MajorFields(s, i + 1); }
    forall j | 0 <= j < |l| && j != i ensures l[j].base != l[i].base {
      assert WellPlaced(l[j]) && WellPlaced(l[i]);
      assert j < i ==> Limit(l[j]) <= l[i].base;
      assert i < j ==> Limit(l[i]) <= l[j].base;
    }
  }

  lemma DropsInside(l: seq<Block>, i: int, x: int)
    requires Sound(l) && 0 <= i < |l| && DropTouches(l, i, x)
    ensures InBlock(l, x)
  {
    var j := if l[i].base <= x < Limit(l[i]) then i else if 0 < i && InMajorHeader(l[i - 1], x) then i - 1 else i + 1;
    assert WellPlaced(l[j]);
    Inside(l, j, x, 1);
  }

  // ---------------------------------------------------- facts about payloads

  // The payload of one minor can be copied to another that is not smaller.
  lemma CanCopy(s: HeapState, m: seq<Byte>, i: int, k: int, j: int, n: int)
    requires Sane(s) && |m| == MEMORY_SIZE && Image(m, s.layout) && Listed(s.layout, i, k) && Listed(s.layout, j, n)
    requires (i, k) != (j, n) && s.layout[i].chunks[k].req <= s.layout[j].chunks[n].req
    ensures var c, d := s.layout[i].chunks[k], s.layout[j].chunks[n];
      var size, p, q := c.req, PayloadOf(c.addr), PayloadOf(d.addr);
      InMemory(p, size) && InMemory(q, size) && Apart(q, size, p, size) && InMajor(s.layout, q, size)
  {
    hide MajorAt, MinorAt, Image, Sane, PayloadOf, InMajor, Sound;
    UnalignUndoesAlign(s, m, i, k);
    UnalignUndoesAlign(s, m, j, n);
    SoundOfSane(s);
    BodiesApart(s.layout, i, k, j, n);
    MinorInside(s, i, k);
    MinorInside(s, j, n);
    InsideLess(s.layout, PayloadOf(s.layout[j].chunks[n].addr), s.layout[i].chunks[k].req, s.layout[j].chunks[n].req);
  }

  /** Writing a live payload disturbs no list, and no other minor. */
  lemma PayloadWrite(s: HeapState, m: seq<Byte>, m': seq<Byte>, i: int, k: int)
    requires Sane(s) && |m| == MEMORY_SIZE && Image(m, s.layout) && Listed(s.layout, i, k)
    requires var c := s.layout[i].chunks[k]; SameOutside(m, m', PayloadOf(c.addr), c.req)
    ensures Image(m', s.layout) && KeptBut(m, m', s.layout, s.brk, s.brk, i, k)
  {
    hide MajorAt, MinorAt;
    var l, b, c := s.layout, s.layout[i], s.layout[i].chunks[k];
    assert Within(b, s.brk) && WellPlaced(b) && ImageAt(m, l, i) && ChunkOk(b, c);
    InBoundsOfSane(s, m);
    SameHeaders(m, m', b.base);
    forall n | 0 <= n < |b.chunks| ensures ChunkImage(m', b, n) {
      assert ChunkOk(b, b.chunks[n]) && ChunkImage(m, b, n);
      if n != k { BodiesApart(l, i, k, i, n); }
      SameHeaders(m, m', b.chunks[n].addr);
    }
    UpdateImage(m, m', l, i, b);
    assert l[i := b] == l;
    forall j, n | Listed(l, j, n) && (j, n) != (i, k)
      ensures SameOn(m, m', BodyOf(l[j].chunks[n]), l[j].chunks[n].size)
    {
      BodiesApart(l, i, k, j, n);
    }
  }

  // The first n bytes at p were moved to q.
  ghost predicate MovedBytes(m: seq<Byte>, m': seq<Byte>, p: int, q: int, n: int) {
    && InMemory(p, n) && InMemory(q, n) && |m| == |m'| == MEMORY_SIZE
    && forall x :: q <= x < q + n ==> m'[x] == m[x - q + p]
  }

  lemma SoundOfSane(s: HeapState)
    requires Sane(s)
    ensures Sound(s.layout)
  {
  }

  lemma PayloadInBody(c: Chunk)
    requires 0 <= c.req && Padded(c.req) <= c.size
    ensures BodyOf(c) <= PayloadOf(c.addr) && PayloadOf(c.addr) + c.req <= EndOf(c)
  {
  }

  lemma SameOutsideWider(m: seq<Byte>, m': seq<Byte>, a: int, n: int, n': int)
    requires SameOutside(m, m', a, n) && n <= n'
    ensures SameOutside(m, m', a, n')
  {
  }

  // The three steps of a move, put together.
  lemma KeptThrough(s: HeapState, m0: seq<Byte>, m1: seq<Byte>, m2: seq<Byte>, m3: seq<Byte>,
                    req: int, i: int, k: int)
    requires Sane(s) && Listed(s.layout, i, k) && BetListed(s.layout, s.bet)
    requires Sane(AfterMalloc(s, req)) && s.layout[i].chunks[k].req <= req
    requires |m0| == |m1| == |m2| == |m3| == MEMORY_SIZE
    requires var u := AfterMalloc(s, req);
      && Kept(m0, m1, s.layout, s.brk, u.brk) && KeptBut(m1, m2, u.layout, u.brk, u.brk, Choose(s, req).index, GapFor(s, req))
      && KeptBut(m2, m3, u.layout, u.brk, u.brk, i, MovedTo(s, req, i, k))
    requires MovedBytes(m1, m2, PayloadOf(s.layout[i].chunks[k].addr), Returned(s, req), s.layout[i].chunks[k].req)
    ensures KeptBut(m0, m3, s.layout, s.brk, AfterMalloc(s, req).brk, i, k)
    ensures MovedBytes(m0, m3, PayloadOf(s.layout[i].chunks[k].addr), Returned(s, req), s.layout[i].chunks[k].req)
  {
    hide AfterMalloc, Choose, GapFor, Returned, MovedTo, Sane, Confined, InBlock;
    BlocksAfterMalloc(s, req);
    var u := AfterMalloc(s, req);
    ConfinedTwice(m1, m2, m3, u.layout, u.layout, u.brk, u.brk, u.brk);
    ConfinedTwice(m0, m1, m3, s.layout, u.layout, s.brk, u.brk, u.brk);
    var l, l', c := s.layout, AfterMalloc(s, req).layout, s.layout[i].chunks[k];
    var j, n := Choose(s, req).index, GapFor(s, req);
    SoundOfSane(s);
    SoundOfSane(AfterMalloc(s, req));
    forall a, b | Listed(l, a, b) && (a, b) != (i, k)
      ensures SameOn(m0, m3, BodyOf(l[a].chunks[b]), l[a].chunks[b].size)
    {
      MallocKeepsMinors(s, req, a, b);
      MovedApart(s, req, i, k, a, b);
      var d := l[a].chunks[b];
      assert SameOn(m0, m1, BodyOf(d), d.size);
      assert SameOn(m1, m2, BodyOf(d), d.size);
      assert SameOn(m2, m3, BodyOf(d), d.size);
    }
    MallocKeepsMinors(s, req, i, k);
    var e := l'[j].chunks[n];
    assert WellPlaced(l[i]) && ChunkOk(l[i], c);
    assert WellPlaced(l'[j]) && ChunkOk(l'[j], e);
    PayloadInBody(c);
    PayloadInBody(e);
    assert SameOn(m0, m1, BodyOf(c), c.size);
    assert SameOn(m2, m3, BodyOf(e), e.size);
  }

  // What was done to the new minor alone touched none of those there were.
  lemma KeptByOther(s: HeapState, m0: seq<Byte>, m1: seq<Byte>, m2: seq<Byte>, req: int)
    requires BetListed(s.layout, s.bet) && |m0| == |m1| == |m2|
    requires var u := AfterMalloc(s, req);
      Kept(m0, m1, s.layout, s.brk, u.brk) && KeptBut(m1, m2, u.layout, u.brk, u.brk, Choose(s, req).index, GapFor(s, req))
    ensures Kept(m0, m2, s.layout, s.brk, AfterMalloc(s, req).brk)
  {
    hide AfterMalloc, Choose, GapFor, MovedTo, Confined, InBlock;
    BlocksAfterMalloc(s, req);
    var u := AfterMalloc(s, req);
    ConfinedTwice(m0, m1, m2, s.layout, u.layout, s.brk, u.brk, u.brk);
    forall a, b | Listed(s.layout, a, b)
      ensures SameOn(m0, m2, BodyOf(s.layout[a].chunks[b]), s.layout[a].chunks[b].size)
    {
      MallocKeepsMinors(s, req, a, b);
      var d := s.layout[a].chunks[b];
      assert SameOn(m0, m1, BodyOf(d), d.size);
      assert SameOn(m1, m2, BodyOf(d), d.size);
    }
  }

  lemma BrkAfterFree(s: HeapState, i: int, k: int)
    requires BetListed(s.layout, s.bet) && Listed(s.layout, i, k)
    ensures AfterFree(s, i, k).brk == s.brk
  {
  }

  lemma SameExtent(b: Block, k: int, req: int)
    requires 0 <= k <= |b.chunks|
    ensures Carve(b, k, req).base == b.base && Limit(Carve(b, k, req)) == Limit(b)
  {
  }

  // A kmalloc makes the majors cover more only behind the others.
  lemma BlocksAfterMalloc(s: HeapState, req: int)
    requires BetListed(s.layout, s.bet)
    ensures var u := AfterMalloc(s, req);
      && s.brk <= u.brk
      && forall x :: InBlock(u.layout, x) ==> InBlock(s.layout, x) || s.brk <= x < u.brk
  {
    hide FinalBet, Carve;
    var u := AfterMalloc(s, req);
    forall x | InBlock(u.layout, x) ensures InBlock(s.layout, x) || s.brk <= x < u.brk {
      var i :| 0 <= i < |u.layout| && u.layout[i].base <= x && x + 1 <= Limit(u.layout[i]);
      SameExtent(Room(s, req)[Choose(s, req).index], GapFor(s, req), req);
      if i < |s.layout| { Inside(s.layout, i, x, 1); }
    }
  }

  lemma MovedApart(s: HeapState, req: int, i: int, k: int, a: int, b: int)
    requires BetListed(s.layout, s.bet) && (i, k) != (a, b)
    ensures (i, MovedTo(s, req, i, k)) != (a, MovedTo(s, req, a, b))
  {
  }

  // --------------------------------------------------- facts about resizing

  lemma MinorFieldsOf(s: HeapState, i: int, k: int, size: int)
    requires Sane(s) && Listed(s.layout, i, k) && 0 <= size <= s.layout[i].chunks[k].req
    ensures MinorFits(MinorOf(s.layout[i], k).(req := size))
  {
  }

  lemma {:induction false} SumsOfUpdate(cs: seq<Chunk>, k: int, c: Chunk)
    requires 0 <= k < |cs| && c.size == cs[k].size
    ensures Taken(cs[k := c]) == Taken(cs) && SizeSum(cs[k := c]) == SizeSum(cs)
  {
    if 0 < k {
      assert cs[k := c][1..] == cs[1..][k - 1 := c];
      SumsOfUpdate(cs[1..], k - 1, c);
    }
  }

  lemma FinishResize(s: HeapState, m: seq<Byte>, m': seq<Byte>, i: int, k: int, size: int)
    requires Good(s) && |m| == MEMORY_SIZE && Image(m, s.layout) && Listed(s.layout, i, k)
    requires 0 <= size <= s.layout[i].chunks[k].req
    requires var a := s.layout[i].chunks[k].addr;
      MinorAt'(m', a, MinorOf(s.layout[i], k).(req := size)) && SameOutside(m, m', a, MINOR_SIZE)
    ensures var l' := Resized(s.layout, i, k, size);
      && Good(s.(layout := l')) && Image(m', l') && Kept(m, m', s.layout, s.brk, s.brk)
      && |l'| == |s.layout| && l'[0].base == s.layout[0].base
      && InUse(l') == InUse(s.layout) && Allocated(l') == Allocated(s.layout)
  {
    hide MajorAt, MinorAt;
    var l, b, c := s.layout, s.layout[i], s.layout[i].chunks[k];
    var b' := b.(chunks := b.chunks[k := c.(req := size)]);
    ResizeKeepsGood(s, i, k, size);
    SumsOfUpdate(b.chunks, k, c.(req := size));
    TotalsOfUpdate(l, i, b');
    ResizeImage(s, m, m', i, k, size);
    forall j, n | Listed(l, j, n) ensures SameOn(m, m', BodyOf(l[j].chunks[n]), l[j].chunks[n].size) {
      assert WellPlaced(l[j]) && ChunkOk(l[j], l[j].chunks[n]);
      assert WellPlaced(b) && ChunkOk(b, c);
      if (j, n) != (i, k) { BodiesApart(l, i, k, j, n); }
    }
  }

  lemma ResizeImage(s: HeapState, m: seq<Byte>, m': seq<Byte>, i: int, k: int, size: int)
    requires Good(s) && |m| == MEMORY_SIZE && Image(m, s.layout) && Listed(s.layout, i, k)
    requires var a := s.layout[i].chunks[k].addr;
      MinorAt'(m', a, MinorOf(s.layout[i], k).(req := size)) && SameOutside(m, m', a, MINOR_SIZE)
    ensures Image(m', Resized(s.layout, i, k, size))
  {
    hide MajorAt, MinorAt, Good;
    var l, b, c := s.layout, s.layout[i], s.layout[i].chunks[k];
    var b' := b.(chunks := b.chunks[k := c.(req := size)]);
    InBoundsOfGood(s, m, i, k);
    SumsOfUpdate(b.chunks, k, c.(req := size));
    SameHeaders(m, m', b.base);
    forall n | 0 <= n < |b'.chunks| ensures ChunkImage(m', b', n) {
      ResizedChunk(s, m, m', i, k, size, n);
    }
    UpdateImage(m, m', l, i, b');
  }

  lemma InBoundsOfGood(s: HeapState, m: seq<Byte>, i: int, k: int)
    requires Good(s) && |m| == MEMORY_SIZE && Image(m, s.layout) && Listed(s.layout, i, k)
    ensures Sound(s.layout) && InBounds(m, s.layout) && ImageAt(m, s.layout, i)
    ensures Within(s.layout[i], s.brk) && WellPlaced(s.layout[i]) && ChunkOk(s.layout[i], s.layout[i].chunks[k])
  {
  }

  lemma ResizedChunk(s: HeapState, m: seq<Byte>, m': seq<Byte>, i: int, k: int, size: int, n: int)
    requires Good(s) && |m| == MEMORY_SIZE && Image(m, s.layout) && Listed(s.layout, i, k) && Listed(s.layout, i, n)
    requires var a := s.layout[i].chunks[k].addr;
      MinorAt'(m', a, MinorOf(s.layout[i], k).(req := size)) && SameOutside(m, m', a, MINOR_SIZE)
    ensures var b := s.layout[i];
      ChunkImage(m', b.(chunks := b.chunks[k := b.chunks[k].(req := size)]), n)
  {
    hide MajorAt, MinorAt, Usage, Good, Sound;
    InBoundsOfGood(s, m, i, k);
    InBoundsOfGood(s, m, i, n);
    var b := s.layout[i];
    assert ChunkImage(m, b, n);
    if n != k {
      BodiesApart(s.layout, i, k, i, n);
      SameHeaders(m, m', b.chunks[n].addr);
    }
  }
}
