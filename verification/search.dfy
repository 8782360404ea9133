/** Where kmalloc puts a request, what kfree and krealloc leave behind, and what
    holds over every run of the three. */
module Search {
  import opened Machine
  import opened Layout

  // The largest request whose bookkeeping stays inside 32 bits.
  const MAX_REQUEST := 0xFFFF_FFAF

  // l_bestBet and bestSize while kmalloc looks around.
  datatype Bet = Bet(base: int, free: int)

  // The majors, l_bestBet (0 is NULL), and the end of the kernel heap.
  datatype HeapState = HeapState(layout: seq<Block>, bet: int, brk: int)

  const INITIAL := HeapState([], 0, KHEAP_START)

  // What has to fit: the padded request and its header.
  function Need(req: int): int { Padded(req) + MINOR_SIZE }

  function Better(bet: Bet, b: Block): Bet {
    if bet.free < Free(b) then Bet(b.base, Free(b)) else bet
  }

  // The position of the major at address a, or |l|.
  function IndexOf(l: seq<Block>, a: int): (i: nat)
    ensures i <= |l|
    ensures i < |l| ==> l[i].base == a
    ensures forall j :: 0 <= j < i ==> l[j].base != a
  {
    if l == [] || l[0].base == a then 0 else 1 + IndexOf(l[1..], a)
  }

  ghost predicate BetListed(l: seq<Block>, bet: int) {
    bet == 0 || IndexOf(l, bet) < |l|
  }

  datatype Found = Found(index: int, bet: Bet)

  /** The walk over the majors from number i on: the first one with room, starting
      over from number 0 if the walk began at the best bet.  Index |l| stands for
      "acquire another major". */
  function Seek(l: seq<Block>, need: int, i: int, started: bool, bet: Bet): (f: Found)
    requires 0 <= i <= |l|
    ensures 0 <= f.index <= |l|
    ensures f.index < |l| ==> FirstGap(l[f.index], need, 0) <= |l[f.index].chunks|
    decreases started, |l| - i
  {
    if i == |l| then
      if started then Seek(l, need, 0, false, bet) else Found(|l|, bet)
    else if FirstGap(l[i], need, 0) <= |l[i].chunks| then Found(i, Better(bet, l[i]))
    else Seek(l, need, i + 1, started, Better(bet, l[i]))
  }

  function InitialBet(s: HeapState): Bet
    requires BetListed(s.layout, s.bet)
  {
    if s.bet == 0 then Bet(0, 0) else Bet(s.bet, Free(s.layout[IndexOf(s.layout, s.bet)]))
  }

  predicate StartsAtBet(s: HeapState, req: int)
    requires BetListed(s.layout, s.bet)
  {
    s.bet != 0 && InitialBet(s).free > Need(req)
  }

  function Choose(s: HeapState, req: int): Found
    requires BetListed(s.layout, s.bet)
  {
    if StartsAtBet(s, req)
    then Seek(s.layout, Need(req), IndexOf(s.layout, s.bet), true, InitialBet(s))
    else Seek(s.layout, Need(req), 0, false, InitialBet(s))
  }

  function Fresh(brk: int, req: int): Block { Block(brk, PagesFor(req), []) }

  predicate Grows(s: HeapState, req: int)
    requires BetListed(s.layout, s.bet)
  {
    Choose(s, req).index == |s.layout|
  }

  predicate CanGrow(s: HeapState, req: int) {
    Limit(Fresh(s.brk, req)) <= KHEAP_END
  }

  // Address x is in the range the kernel keeps for the heap.
  predicate InRange(x: int) { KHEAP_START <= x < KHEAP_END }

  /** The heap can grow if and only if every byte it grows by is in that range. */
  lemma CanGrowIff(s: HeapState, req: int)
    requires KHEAP_START <= s.brk
    ensures CanGrow(s, req) <==> forall x :: s.brk <= x < Limit(Fresh(s.brk, req)) ==> InRange(x)
  {
    assert s.brk < Limit(Fresh(s.brk, req));
    if !CanGrow(s, req) { assert !InRange(Limit(Fresh(s.brk, req)) - 1); }
  }

  // The layout the request is put into, the gap it is put at, and the best bet left behind.
  function Room(s: HeapState, req: int): seq<Block>
    requires BetListed(s.layout, s.bet)
  {
    if Grows(s, req) then s.layout + [Fresh(s.brk, req)] else s.layout
  }

  function GapFor(s: HeapState, req: int): int
    requires BetListed(s.layout, s.bet)
  {
    if Grows(s, req) then 0 else
    FirstGap(s.layout[Choose(s, req).index], Need(req), 0)
  }

  // A major acquired because the last one was rejected unseen is used at once; one
  // acquired because the last one was too fragmented goes around the loop.
  function FinalBet(s: HeapState, req: int): int
    requires BetListed(s.layout, s.bet)
  {
    var f := Choose(s, req);
    var n := |s.layout|;
    if !Grows(s, req) || (n != 0 && Free(s.layout[n - 1]) < Need(req)) then f.bet.base
    else Better(f.bet, Fresh(s.brk, req)).base
  }

  function AfterMalloc(s: HeapState, req: int): HeapState
    requires BetListed(s.layout, s.bet)
  {
    var room := Room(s, req);
    var i := Choose(s, req).index;
    HeapState(Place(room, i, GapFor(s, req), req), FinalBet(s, req),
              if Grows(s, req) then Limit(Fresh(s.brk, req)) else s.brk)
  }

  // The pointer returned.
  function Returned(s: HeapState, req: int): int
    requires BetListed(s.layout, s.bet)
  {
    PayloadOf(GapStart(Room(s, req)[Choose(s, req).index], GapFor(s, req)))
  }

  function AfterFree(s: HeapState, i: int, k: int): HeapState
    requires BetListed(s.layout, s.bet) && Listed(s.layout, i, k)
  {
    var b := s.layout[i];
    var l := Release(s.layout, i, k);
    if |b.chunks| == 1 then HeapState(l, if s.bet == b.base then 0 else s.bet, s.brk)
    else
      var j := IndexOf(s.layout, s.bet);
      var bet := if s.bet != 0 && Signed(Free(l[i])) > Signed(Free(l[j])) then b.base else s.bet;
      HeapState(l, bet, s.brk)
  }

  // krealloc to a size that still fits only notes the new size.
  function Resized(l: seq<Block>, i: int, k: int, req: int): seq<Block>
    requires Listed(l, i, k)
  {
    var b := l[i];
    l[i := b.(chunks := b.chunks[k := b.chunks[k].(req := req)])]
  }

  // --------------------------------------------------------- the search is right

  // A walk that finds nothing has looked at every major from number i on, and at all
  // of them if it began at the best bet.
  lemma {:induction false} SeekExhausts(l: seq<Block>, need: int, i: int, started: bool, bet: Bet, j: int)
    requires 0 <= i <= |l| && Seek(l, need, i, started, bet).index == |l|
    requires 0 <= j < |l| && (started || i <= j)
    ensures !HasRoom(l[j], need)
    decreases started, |l| - i
  {
    if i == |l| {
      SeekExhausts(l, need, 0, false, bet, j);
    } else if started || i < j {
      SeekExhausts(l, need, i + 1, started, Better(bet, l[i]), j);
    }
  }

  /** One step of the walk past a major without room. */
  lemma SeekPasses(l: seq<Block>, need: int, i: int, started: bool, bet: Bet)
    requires 0 <= i < |l| && (Free(l[i]) < need || FirstGap(l[i], need, 0) > |l[i].chunks|)
    requires WellPlaced(l[i])
    ensures var bet' := Better(bet, l[i]);
      Seek(l, need, i, started, bet) ==
        if i + 1 < |l| then Seek(l, need, i + 1, started, bet')
        else if started then Seek(l, need, 0, false, bet')
        else Found(|l|, bet')
  {
    if Free(l[i]) < need { QuickRejectIsSound(l[i], need); }
  }

  // kmalloc is looking at major i of l with best bet bet; grown says that this is
  // the major it has just acquired.
  ghost predicate OnTrack(s: HeapState, req: int, l: seq<Block>, brk: int,
                          i: int, started: bool, bet: Bet, grown: bool)
    requires BetListed(s.layout, s.bet)
  {
    && 0 <= i < |l|
    && if grown then
         && Grows(s, req) && l == Room(s, req) && brk == Limit(Fresh(s.brk, req))
         && i == |s.layout| && !started && Better(bet, l[i]).base == FinalBet(s, req)
       else
         && l == s.layout && brk == s.brk
         && Seek(l, Need(req), i, started, bet) == Choose(s, req)
  }

  // Major i was looked at and rejected, by its usage field or gap by gap.
  ghost predicate Rejected(b: Block, need: int) {
    WellPlaced(b) && (Free(b) < need || FirstGap(b, need, 0) > |b.chunks|)
  }

  lemma TrackStarts(s: HeapState, req: int)
    requires BetListed(s.layout, s.bet) && s.layout != []
    ensures OnTrack(s, req, s.layout, s.brk,
                    if StartsAtBet(s, req) then IndexOf(s.layout, s.bet) else 0,
                    StartsAtBet(s, req), InitialBet(s), false)
  {
  }

  lemma TrackStartsEmpty(s: HeapState, req: int)
    requires s.layout == [] && s.bet == 0
    ensures Grows(s, req)
    ensures OnTrack(s, req, [Fresh(s.brk, req)], Limit(Fresh(s.brk, req)), 0, false, Bet(0, 0), true)
  {
  }

  lemma TrackMovesOn(s: HeapState, req: int, i: int, started: bool, bet: Bet)
    requires BetListed(s.layout, s.bet)
    requires OnTrack(s, req, s.layout, s.brk, i, started, bet, false) && Rejected(s.layout[i], Need(req))
    ensures var bet' := Better(bet, s.layout[i]);
      if i + 1 < |s.layout| then OnTrack(s, req, s.layout, s.brk, i + 1, started, bet', false)
      else if started then OnTrack(s, req, s.layout, s.brk, 0, false, bet', false)
      else Grows(s, req) && Choose(s, req).bet == bet'
  {
    SeekPasses(s.layout, Need(req), i, started, bet);
  }

  lemma TrackGrows(s: HeapState, req: int, bet: Bet)
    requires BetListed(s.layout, s.bet) && s.layout != []
    requires Grows(s, req) && Choose(s, req).bet == bet && Free(s.layout[|s.layout| - 1]) >= Need(req)
    ensures OnTrack(s, req, s.layout + [Fresh(s.brk, req)], Limit(Fresh(s.brk, req)), |s.layout|, false, bet, true)
  {
  }

  // The major just acquired is not rejected.
  lemma TrackGrown(s: HeapState, req: int, l: seq<Block>, brk: int, i: int, started: bool, bet: Bet)
    requires BetListed(s.layout, s.bet) && OnTrack(s, req, l, brk, i, started, bet, true) && 0 <= req
    ensures l[i] == Fresh(s.brk, req) && Free(l[i]) >= Need(req)
  {
  }

  // If major i of l has room, this is how the call ends.
  ghost predicate EndsAt(s: HeapState, req: int, l: seq<Block>, brk: int, i: int, bet: int)
    requires BetListed(s.layout, s.bet) && 0 <= i < |l|
  {
    var k := FirstGap(l[i], Need(req), 0);
    k <= |l[i].chunks| ==>
      && AfterMalloc(s, req) == HeapState(Place(l, i, k, req), bet, brk)
      && Returned(s, req) == PayloadOf(GapStart(l[i], k))
  }

  lemma TrackEnds(s: HeapState, req: int, l: seq<Block>, brk: int, i: int, started: bool, bet: Bet, grown: bool)
    requires BetListed(s.layout, s.bet) && OnTrack(s, req, l, brk, i, started, bet, grown) && 0 <= req
    ensures EndsAt(s, req, l, brk, i, Better(bet, l[i]).base)
    ensures grown ==> FirstGap(l[i], Need(req), 0) == 0
    ensures !grown && FirstGap(l[i], Need(req), 0) <= |l[i].chunks| ==> !Grows(s, req)
  {
  }

  lemma TrackEndsUnseen(s: HeapState, req: int)
    requires BetListed(s.layout, s.bet) && s.layout != [] && Grows(s, req) && 0 <= req
    requires Free(s.layout[|s.layout| - 1]) < Need(req)
    ensures EndsAt(s, req, s.layout + [Fresh(s.brk, req)], Limit(Fresh(s.brk, req)), |s.layout|, Choose(s, req).bet.base)
    ensures FirstGap(Fresh(s.brk, req), Need(req), 0) == 0
  {
  }

  /** kmalloc asks for more pages exactly when no gap of any major holds the request,
      although it starts mid-list and rejects majors by their usage field alone. */
  lemma GrowsOnlyWhenFull(s: HeapState, req: int)
    requires BetListed(s.layout, s.bet)
    ensures Grows(s, req) <==> forall j :: 0 <= j < |s.layout| ==> !HasRoom(s.layout[j], Need(req))
  {
    var start := StartsAtBet(s, req);
    var i := if start then IndexOf(s.layout, s.bet) else 0;
    if Grows(s, req) {
      forall j | 0 <= j < |s.layout| ensures !HasRoom(s.layout[j], Need(req)) {
        SeekExhausts(s.layout, Need(req), i, start, InitialBet(s), j);
      }
    } else {
      var b := s.layout[Choose(s, req).index];
      assert Gap(b, FirstGap(b, Need(req), 0)) >= Need(req);
      assert HasRoom(b, Need(req));
    }
  }

  // Major j, the first of those from number i on, and then from the root if i was the best
  // bet, that holds need bytes.
  ghost predicate FirstFit(l: seq<Block>, need: int, i: int, around: bool, j: int) {
    && 0 <= j < |l| && HasRoom(l[j], need)
    && (if i <= j then forall n :: 0 <= i <= n < j && n < |l| ==> !HasRoom(l[n], need)
        else around && forall n :: 0 <= n < |l| && (i <= n || n < j) ==> !HasRoom(l[n], need))
  }

  lemma {:induction false} SeekIsFirstFit(l: seq<Block>, need: int, i: int, started: bool, bet: Bet)
    requires 0 <= i <= |l|
    ensures var f := Seek(l, need, i, started, bet); f.index < |l| ==> FirstFit(l, need, i, started, f.index)
    decreases started, |l| - i
  {
    if i == |l| {
      if started { SeekIsFirstFit(l, need, 0, false, bet); }
    } else if FirstGap(l[i], need, 0) > |l[i].chunks| {
      SeekIsFirstFit(l, need, i + 1, started, Better(bet, l[i]));
    }
  }

  /** Where a request goes that some gap holds: to the first major with such a gap, from the
      best bet on if that has more free space than needed, and otherwise from the root; and
      there into the first such gap. */
  lemma GoesToFirstFit(s: HeapState, req: int)
    requires BetListed(s.layout, s.bet) && !Grows(s, req)
    ensures var l, j, k := s.layout, Choose(s, req).index, GapFor(s, req);
      && (if s.bet != 0 && Free(l[IndexOf(l, s.bet)]) > Need(req) then FirstFit(l, Need(req), IndexOf(l, s.bet), true, j)
          else FirstFit(l, Need(req), 0, false, j))
      && 0 <= k <= |l[j].chunks| && Gap(l[j], k) >= Need(req) && forall n :: 0 <= n < k ==> Gap(l[j], n) < Need(req)
  {
    var i := if StartsAtBet(s, req) then IndexOf(s.layout, s.bet) else 0;
    SeekIsFirstFit(s.layout, Need(req), i, StartsAtBet(s, req), InitialBet(s));
  }

  /** A major acquired for a request holds it, and wastes no page beyond the minimum. */
  lemma FreshHasRoom(brk: int, req: int)
    requires 0 <= req
    ensures Gap(Fresh(brk, req), 0) >= Need(req)
    ensures PagesFor(req) == PAGE_COUNT ||
            PAGE_SIZE * (PagesFor(req) - 1) < Padded(req) + MAJOR_SIZE + MINOR_SIZE
  {
  }

  // What kmalloc computes in unsigned words: the padded size, what it compares with the
  // gaps, the bytes and the pages of a new major, and the size noted in its header.
  function PaddedWord(req: Word32): Word32 { Padded(req) % WORD_RANGE }

  function NeedWord(req: Word32): Word32 { (PaddedWord(req) + MINOR_SIZE) % WORD_RANGE }

  function BytesWord(req: Word32): Word32 { (PaddedWord(req) + MAJOR_SIZE + MINOR_SIZE) % WORD_RANGE }

  function PagesWord(req: Word32): int {
    var n := if BytesWord(req) % PAGE_SIZE == 0 then BytesWord(req) / PAGE_SIZE else BytesWord(req) / PAGE_SIZE + 1;
    if n < PAGE_COUNT then PAGE_COUNT else n
  }

  function SizeWord(req: Word32): Word32 { PagesWord(req) * PAGE_SIZE % WORD_RANGE }

  /** The size noted for a new major holds the request it was acquired for exactly up to
      0xFFFFEFB0; from there to MAX_REQUEST it is 0, but the pages are more than the kernel
      heap can have, so that it is never noted.  Up to MAX_REQUEST, and no further, what is
      compared and asked for is right. */
  lemma FreshHoldsIff(req: Word32)
    ensures SizeWord(req) - MAJOR_SIZE >= Need(req) <==> req <= 0xFFFF_EFB0
    ensures req <= MAX_REQUEST <==> BytesWord(req) == Padded(req) + MAJOR_SIZE + MINOR_SIZE
    ensures req <= MAX_REQUEST ==>
      PaddedWord(req) == Padded(req) && NeedWord(req) == Need(req) && PagesWord(req) == PagesFor(req)
    ensures 0xFFFF_EFB0 < req <= MAX_REQUEST ==> SizeWord(req) == 0 && PagesWord(req) * PAGE_SIZE > KHEAP_END - KHEAP_START
  {
  }

  // Beyond it a request for all but 16 bytes of the address space passes for one that
  // needs 40, and a request for all but 32 for one of size 0.
  lemma WrappedRequests()
    ensures NeedWord(0xFFFF_FFF0) == 40 <= SizeWord(0xFFFF_FFF0) - MAJOR_SIZE
    ensures PaddedWord(0xFFFF_FFE0) == 0
  {
  }

  // ------------------------------------------------------------------- runs

  // What holds throughout a call ...
  ghost predicate Sane(s: HeapState) {
    && Sound(s.layout) && BetListed(s.layout, s.bet)
    && KHEAP_START <= s.brk <= KHEAP_END && s.brk % PAGE_SIZE == 0
    && (forall i :: 0 <= i < |s.layout| ==> Within(s.layout[i], s.brk))
  }

  /** ... and what holds between calls. */
  ghost predicate Good(s: HeapState) { Sane(s) && NoneEmpty(s.layout) }

  lemma RoomIsSound(s: HeapState, req: int)
    requires Good(s) && 0 <= req
    ensures Sound(Room(s, req))
    ensures var i := Choose(s, req).index;
            0 <= i < |Room(s, req)| && 0 <= GapFor(s, req) <= |Room(s, req)[i].chunks| &&
            Gap(Room(s, req)[i], GapFor(s, req)) >= Need(req)
  {
    FreshHasRoom(s.brk, req);
  }

  lemma {:induction false} SeekBet(l: seq<Block>, need: int, i: int, started: bool, bet: Bet)
    requires 0 <= i <= |l| && BetListed(l, bet.base)
    ensures BetListed(l, Seek(l, need, i, started, bet).bet.base)
    decreases started, |l| - i
  {
    if i == |l| {
      if started { SeekBet(l, need, 0, false, bet); }
    } else {
      assert BetListed(l, Better(bet, l[i]).base);
      if FirstGap(l[i], need, 0) > |l[i].chunks| {
        SeekBet(l, need, i + 1, started, Better(bet, l[i]));
      }
    }
  }

  ghost predicate Within(b: Block, brk: int) {
    KHEAP_START <= b.base && Limit(b) <= brk
  }

  // The best bet kmalloc leaves behind is one of the majors there are.
  lemma FinalBetListed(s: HeapState, req: int)
    requires BetListed(s.layout, s.bet)
    ensures BetListed(Room(s, req), FinalBet(s, req))
  {
    var i := if StartsAtBet(s, req) then IndexOf(s.layout, s.bet) else 0;
    SeekBet(s.layout, Need(req), i, StartsAtBet(s, req), InitialBet(s));
    var bet, room := FinalBet(s, req), Room(s, req);
    if bet != 0 {
      var j := IndexOf(s.layout, bet);
      assert room[if j < |s.layout| then j else |s.layout|].base == bet;
    }
  }

  // The walk from number i, which began at the best bet or not, has looked at number n by the
  // time it ends at idx.
  predicate Passed(i: int, started: bool, idx: int, n: int) {
    if started && idx < i then i <= n || n <= idx else i <= n <= idx
  }

  lemma {:induction false} SeekBest(l: seq<Block>, need: int, i: int, started: bool, bet: Bet)
    requires 0 <= i <= |l|
    ensures var f := Seek(l, need, i, started, bet);
      && bet.free <= f.bet.free && (f.bet == bet || bet.free < f.bet.free)
      && (forall n :: 0 <= n < |l| && (Passed(i, started, f.index, n) || (started && f.index == |l|)) ==>
            Free(l[n]) <= f.bet.free)
      && (f.bet == bet || exists n :: 0 <= n < |l| && f.bet == Bet(l[n].base, Free(l[n])))
    decreases started, |l| - i
  {
    hide FirstGap, Free;
    if i == |l| {
      if started { SeekBest(l, need, 0, false, bet); }
    } else if FirstGap(l[i], need, 0) > |l[i].chunks| {
      SeekBest(l, need, i + 1, started, Better(bet, l[i]));
    }
  }

  // kmalloc has looked at major n, one of those there were.
  predicate Visited(s: HeapState, req: int, n: int)
    requires BetListed(s.layout, s.bet)
  {
    0 <= n < |s.layout| && (
      || Grows(s, req)
      || Passed(if StartsAtBet(s, req) then IndexOf(s.layout, s.bet) else 0, StartsAtBet(s, req), Choose(s, req).index, n))
  }

  // The free space of the major at bet, in which l has one there; none for NULL.
  function FreeAt(l: seq<Block>, bet: int): int
    requires BetListed(l, bet)
  {
    if bet == 0 then 0 else Free(l[IndexOf(l, bet)])
  }

  /** The best bet kmalloc leaves behind is the one there was, or a major with more free space:
      none of those it has looked at had more, that is none at all if it went on to acquire
      another one.  That one it looks at too, unless it found the last one too full at once. */
  lemma MallocLeavesBest(s: HeapState, req: int)
    requires Good(s) && 0 <= req
    ensures var room, bet := Room(s, req), FinalBet(s, req);
      && BetListed(room, bet)
      && (forall n :: Visited(s, req, n) ==> Free(s.layout[n]) <= FreeAt(room, bet))
      && FreeAt(s.layout, s.bet) <= FreeAt(room, bet) && (bet == s.bet || FreeAt(s.layout, s.bet) < FreeAt(room, bet))
      && (Grows(s, req) && (s.layout == [] || Free(s.layout[|s.layout| - 1]) >= Need(req)) ==>
            Free(Fresh(s.brk, req)) <= FreeAt(room, bet))
  {
    hide Free, FirstGap, Fresh, Sane, Seek, IndexOf, FreeAt, Choose, Visited, InitialBet;
    BetOfGood(s);
    RoomIsSound(s, req);
    FoundIsBest(s, req);
    if Grows(s, req) { FreeAtBase(Room(s, req), |s.layout|); }
  }

  // What the walk itself ends with.
  lemma FoundIsBest(s: HeapState, req: int)
    requires Good(s) && 0 <= req
    ensures var room, bet := Room(s, req), Choose(s, req).bet;
      && BetListed(room, bet.base) && FreeAt(room, bet.base) == bet.free && BetListed(room, s.bet)
      && (forall n :: Visited(s, req, n) ==> Free(s.layout[n]) <= bet.free)
      && FreeAt(s.layout, s.bet) <= bet.free && (bet.base == s.bet || FreeAt(s.layout, s.bet) < bet.free)
  {
    hide Free, FirstGap, Fresh, Sane, Seek, IndexOf, StartsAtBet;
    BetOfGood(s);
    var l, room, f := s.layout, Room(s, req), Choose(s, req);
    var i := if StartsAtBet(s, req) then IndexOf(l, s.bet) else 0;
    IndexIs(l, s.bet);
    RoomIsSound(s, req);
    FreeAtBet(l, room, s.bet);
    SeekBest(l, Need(req), i, StartsAtBet(s, req), InitialBet(s));
    if f.bet != InitialBet(s) {
      var n :| 0 <= n < |l| && f.bet == Bet(l[n].base, Free(l[n]));
      assert room[n] == l[n];
      FreeAtBase(room, n);
    }
  }

  lemma BetOfGood(s: HeapState)
    requires Good(s)
    ensures BetListed(s.layout, s.bet) && Sound(s.layout)
  {
  }

  lemma FreeAtBase(l: seq<Block>, n: int)
    requires Sound(l) && 0 <= n < |l|
    ensures BetListed(l, l[n].base) && l[n].base != 0 && FreeAt(l, l[n].base) == Free(l[n])
  {
    assert WellPlaced(l[n]) && WellPlaced(l[IndexOf(l, l[n].base)]);
    BaseAgain(l, n);
  }

  lemma {:induction false} BaseAgain(l: seq<Block>, n: int)
    requires 0 <= n < |l|
    ensures IndexOf(l, l[n].base) <= n
  {
    if l[0].base != l[n].base { BaseAgain(l[1..], n - 1); }
  }

  // The best bet there was, with its free space, also in a longer list.
  lemma FreeAtBet(l: seq<Block>, room: seq<Block>, bet: int)
    requires BetListed(l, bet) && l <= room && Sound(room)
    ensures BetListed(room, bet) && FreeAt(room, bet) == FreeAt(l, bet)
  {
    if bet != 0 {
      var n := IndexOf(l, bet);
      assert room[n] == l[n];
      FreeAtBase(room, n);
    }
  }

  /** After a kfree that leaves its major listed, the best bet is the one there was or that
      major, and that only with more free space: neither has more than it. */
  lemma FreeLeavesBest(s: HeapState, i: int, k: int)
    requires Good(s) && Listed(s.layout, i, k) && |s.layout[i].chunks| != 1
    ensures BetListed(s.layout, s.bet)
    ensures var u, mine := AfterFree(s, i, k), s.layout[i].base;
      && BetListed(u.layout, s.bet) && BetListed(u.layout, mine) && BetListed(u.layout, u.bet)
      && (s.bet == 0 ==> u.bet == 0)
      && (s.bet != 0 ==>
            && FreeAt(u.layout, u.bet) >= FreeAt(u.layout, mine) && FreeAt(u.layout, u.bet) >= FreeAt(u.layout, s.bet)
            && (u.bet != s.bet ==> u.bet == mine && FreeAt(u.layout, mine) > FreeAt(u.layout, s.bet)))
  {
    hide Free, Sane, IndexOf, FreeAt, Signed, Unlink;
    BetOfGood(s);
    var u := AfterFree(s, i, k);
    FreeKeepsGood(s, i, k);
    BetOfGood(u);
    UnlinkKeepsBase(s.layout[i], k);
    FreeInRange(u, i);
    FreeAtBase(u.layout, i);
    if s.bet != 0 {
      var j := IndexOf(s.layout, s.bet);
      IndexIs(s.layout, s.bet);
      FreeInRange(u, j);
      FreeAtBase(u.layout, j);
    }
  }

  lemma IndexIs(l: seq<Block>, bet: int)
    ensures 0 <= IndexOf(l, bet) <= |l| && (IndexOf(l, bet) < |l| ==> l[IndexOf(l, bet)].base == bet)
  {
  }

  lemma UnlinkKeepsBase(b: Block, k: int)
    requires 0 <= k < |b.chunks|
    ensures Unlink(b, k).base == b.base
  {
  }

  lemma FreeInRange(s: HeapState, i: int)
    requires Good(s) && 0 <= i < |s.layout|
    ensures Signed(Free(s.layout[i])) == Free(s.layout[i])
  {
    var b := s.layout[i];
    assert WellPlaced(b) && Within(b, s.brk);
    UsageWithinBlock(b);
  }

  // One that releases its major forgets it as the best bet, and no other.
  lemma ReleaseForgetsBet(s: HeapState, i: int, k: int)
    requires Good(s) && Listed(s.layout, i, k) && |s.layout[i].chunks| == 1
    ensures BetListed(s.layout, s.bet) && AfterFree(s, i, k).bet == if s.bet == s.layout[i].base then 0 else s.bet
  {
  }

  /** Every kmalloc that is granted leaves a good state ... */
  lemma MallocKeepsGood(s: HeapState, req: int)
    requires Good(s) && 0 <= req && (Grows(s, req) ==> CanGrow(s, req))
    ensures Good(AfterMalloc(s, req))
  {
    RoomIsSound(s, req);
    var room, i, k := Room(s, req), Choose(s, req).index, GapFor(s, req);
    var s' := AfterMalloc(s, req);
    PlaceKeepsSound(room, i, k, req);
    RoomIsWithin(s, req);
    FinalBetListed(s, req);
    if s'.bet != 0 { assert s'.layout[IndexOf(room, s'.bet)].base == s'.bet; }
    forall j | 0 <= j < |room| ensures Within(s'.layout[j], s'.brk) && s'.layout[j].chunks != [] {
      assert Within(room[j], s'.brk);
    }
  }

  lemma RoomIsWithin(s: HeapState, req: int)
    requires Good(s) && (Grows(s, req) ==> CanGrow(s, req))
    ensures var brk := AfterMalloc(s, req).brk;
            s.brk <= brk <= KHEAP_END && brk % PAGE_SIZE == 0 &&
            forall j :: 0 <= j < |Room(s, req)| ==>
              Within(Room(s, req)[j], brk) && (Room(s, req)[j].chunks != [] || j == Choose(s, req).index)
  {
  }

  /** ... and so does every kfree of a live pointer ... */
  lemma FreeKeepsGood(s: HeapState, i: int, k: int)
    requires Good(s) && Listed(s.layout, i, k)
    ensures Good(AfterFree(s, i, k))
    ensures |s.layout[i].chunks| == 1 ==> Gone(AfterFree(s, i, k), s.layout[i].base)
  {
    if |s.layout[i].chunks| == 1 { EmptiedIsGone(s, i, k); }
    AfterFreeIsGood(s, i, k);
  }

  // The major at a is neither listed nor the best bet.
  ghost predicate Gone(s: HeapState, a: int) { s.bet != a && IndexOf(s.layout, a) == |s.layout| }

  lemma EmptiedIsGone(s: HeapState, i: int, k: int)
    requires Good(s) && Listed(s.layout, i, k) && |s.layout[i].chunks| == 1
    ensures Gone(AfterFree(s, i, k), s.layout[i].base)
  {
    var l := Delete(s.layout, i);
    assert WellPlaced(s.layout[i]);
    forall j | 0 <= j < |l| ensures l[j].base != s.layout[i].base {
      assert WellPlaced(l[j]);
    }
  }

  lemma AfterFreeIsGood(s: HeapState, i: int, k: int)
    requires Good(s) && Listed(s.layout, i, k)
    ensures Good(AfterFree(s, i, k))
  {
    hide WellPlaced, Free, Signed;
    ReleaseKeepsSound(s.layout, i, k);
    var s' := AfterFree(s, i, k);
    var gone := |s.layout[i].chunks| == 1;
    forall j | 0 <= j < |s'.layout| ensures Within(s'.layout[j], s.brk) {
      assert Within(s.layout[if gone && i <= j then j + 1 else j], s.brk);
    }
    if s'.bet != 0 {
      var j := if s'.bet == s.bet then IndexOf(s.layout, s.bet) else i;
      assert s'.layout[if gone && i < j then j - 1 else j].base == s'.bet;
    }
  }

  lemma ResizedIsPlaced(b: Block, k: int, req: int)
    requires WellPlaced(b) && 0 <= k < |b.chunks| && 0 <= req <= b.chunks[k].req
    ensures WellPlaced(b.(chunks := b.chunks[k := b.chunks[k].(req := req)]))
  {
    var b' := b.(chunks := b.chunks[k := b.chunks[k].(req := req)]);
    forall n | 0 <= n < |b'.chunks| ensures ChunkOk(b', b'.chunks[n]) {
      assert ChunkOk(b, b.chunks[n]);
    }
  }

  /** ... and every krealloc in place. */
  lemma ResizeKeepsGood(s: HeapState, i: int, k: int, req: int)
    requires Good(s) && Listed(s.layout, i, k) && 0 <= req <= s.layout[i].chunks[k].req
    ensures Good(s.(layout := Resized(s.layout, i, k, req)))
  {
    hide WellPlaced;
    var l' := Resized(s.layout, i, k, req);
    ResizedIsPlaced(s.layout[i], k, req);
    forall j | 0 <= j < |l'| ensures WellPlaced(l'[j]) && Within(l'[j], s.brk) {
      assert WellPlaced(s.layout[j]) && Within(s.layout[j], s.brk);
    }
    if s.bet != 0 { assert l'[IndexOf(s.layout, s.bet)].base == s.bet; }
  }

  // The number of minor k of major i once req has been placed.
  function MovedTo(s: HeapState, req: int, i: int, k: int): int
    requires BetListed(s.layout, s.bet)
  {
    if Choose(s, req).index == i && GapFor(s, req) <= k then k + 1 else k
  }

  /** After a kmalloc every live minor is still there, and so is the new one: the
      pointer returned is that of no other. */
  lemma MallocKeepsMinors(s: HeapState, req: int, i: int, k: int)
    requires BetListed(s.layout, s.bet)
    ensures var l := AfterMalloc(s, req).layout; var j, n := Choose(s, req).index, GapFor(s, req);
      && Listed(l, j, n) && PayloadOf(l[j].chunks[n].addr) == Returned(s, req)
      && l[j].chunks[n].req == req && l[j].chunks[n].size == Padded(req)
      && (Listed(s.layout, i, k) ==>
            var k' := MovedTo(s, req, i, k);
            Listed(l, i, k') && l[i].chunks[k'] == s.layout[i].chunks[k] && (i, k') != (j, n))
  {
  }

  lemma BetAfterMalloc(s: HeapState, req: int)
    requires BetListed(s.layout, s.bet)
    ensures BetListed(AfterMalloc(s, req).layout, AfterMalloc(s, req).bet)
  {
    FinalBetListed(s, req);
    var s' := AfterMalloc(s, req);
    if s'.bet != 0 { assert s'.layout[IndexOf(Room(s, req), s'.bet)].base == s'.bet; }
  }

  // krealloc to a larger size: place the larger request, then free the old minor.
  function AfterMove(s: HeapState, req: int, i: int, k: int): HeapState
    requires BetListed(s.layout, s.bet) && Listed(s.layout, i, k)
  {
    MallocKeepsMinors(s, req, i, k);
    BetAfterMalloc(s, req);
    AfterFree(AfterMalloc(s, req), i, MovedTo(s, req, i, k))
  }
}
