/** Whole histories of kmalloc, kfree and krealloc: the payloads in the layout are at
    every moment exactly the ones handed out and not given back. */
module History {
  import opened Machine
  import opened Layout
  import opened Search

  // A payload of n bytes at p is live.
  ghost predicate Holds(l: seq<Block>, p: int, n: int) {
    exists i, k :: Listed(l, i, k) && HeldBy(l[i].chunks[k], p, n)
  }

  predicate HeldBy(c: Chunk, p: int, n: int) { PayloadOf(c.addr) == p && c.req == n }

  // One call, with what was asked for and what came back.
  datatype Op = Malloc(req: int, p: int) | Free(p: int) | Shrink(p: int, req: int)

  // Taking op from s leads to s'.
  ghost predicate Step(s: HeapState, op: Op, s': HeapState) {
    BetListed(s.layout, s.bet) &&
    match op
    case Malloc(req, p) =>
      0 <= req <= MAX_REQUEST && (Grows(s, req) ==> CanGrow(s, req)) &&
      s' == AfterMalloc(s, req) && p == Returned(s, req)
    case Free(p) =>
      exists i, k :: Listed(s.layout, i, k) && PayloadOf(s.layout[i].chunks[k].addr) == p && s' == AfterFree(s, i, k)
    case Shrink(p, req) =>
      exists i, k :: Listed(s.layout, i, k) && PayloadOf(s.layout[i].chunks[k].addr) == p &&
        0 <= req <= s.layout[i].chunks[k].req && s' == s.(layout := Resized(s.layout, i, k, req))
  }

  // The caller's own books: the size asked for, by pointer.
  function Booked(books: map<int, int>, op: Op): map<int, int> {
    match op
    case Malloc(req, p) => books[p := req]
    case Free(p) => books - {p}
    case Shrink(p, req) => books[p := req]
  }

  function Books(ops: seq<Op>): map<int, int> {
    if ops == [] then map[] else Booked(Books(ops[..|ops| - 1]), ops[|ops| - 1])
  }

  ghost predicate Run(ss: seq<HeapState>, ops: seq<Op>) {
    && |ss| == |ops| + 1 && ss[0] == INITIAL
    && forall t :: 0 <= t < |ops| ==> Step(ss[t], ops[t], ss[t + 1])
  }

  ghost predicate Agrees(l: seq<Block>, books: map<int, int>) {
    forall p, n :: Holds(l, p, n) <==> p in books && books[p] == n
  }

  // ------------------------------------------------------------- single steps

  lemma SameMinor(l: seq<Block>, i: int, k: int, j: int, n: int)
    requires Sound(l) && Listed(l, i, k) && Listed(l, j, n)
    requires PayloadOf(l[i].chunks[k].addr) == PayloadOf(l[j].chunks[n].addr)
    ensures (i, k) == (j, n)
  {
  }

  /** kmalloc adds exactly the payload it returns, at an address that was not live. */
  lemma MallocAdds(s: HeapState, req: int)
    requires Good(s) && 0 <= req && (Grows(s, req) ==> CanGrow(s, req))
    ensures forall p, n :: Holds(AfterMalloc(s, req).layout, p, n) <==>
              Holds(s.layout, p, n) || (p == Returned(s, req) && n == req)
    ensures forall n :: !Holds(s.layout, Returned(s, req), n)
  {
    var l, l' := s.layout, AfterMalloc(s, req).layout;
    var j, g := Choose(s, req).index, GapFor(s, req);
    MallocKeepsGood(s, req);
    forall p, n ensures Holds(l', p, n) <==> Holds(l, p, n) || (p == Returned(s, req) && n == req) {
      MallocKeepsMinors(s, req, 0, 0);
      if Holds(l, p, n) {
        var i, k :| Listed(l, i, k) && HeldBy(l[i].chunks[k], p, n);
        MallocKeepsMinors(s, req, i, k);
        assert HeldBy(l'[i].chunks[MovedTo(s, req, i, k)], p, n);
      } else if Holds(l', p, n) {
        var i, k :| Listed(l', i, k) && HeldBy(l'[i].chunks[k], p, n);
        MallocAddsOne(s, req, i, k);
      } else {
        assert !HeldBy(l'[j].chunks[g], p, n);
      }
    }
    forall n ensures !Holds(l, Returned(s, req), n) {
      if Holds(l, Returned(s, req), n) {
        var i, k :| Listed(l, i, k) && HeldBy(l[i].chunks[k], Returned(s, req), n);
        MallocKeepsMinors(s, req, i, k);
        SameMinor(l', i, MovedTo(s, req, i, k), j, g);
      }
    }
  }

  // A minor there after a kmalloc is the new one or was there before.
  lemma MallocAddsOne(s: HeapState, req: int, i: int, k: int)
    requires BetListed(s.layout, s.bet) && Listed(AfterMalloc(s, req).layout, i, k)
    ensures var c := AfterMalloc(s, req).layout[i].chunks[k];
      || (i, k) == (Choose(s, req).index, GapFor(s, req))
      || exists k0 :: Listed(s.layout, i, k0) && s.layout[i].chunks[k0] == c
  {
    var j, g := Choose(s, req).index, GapFor(s, req);
    if (i, k) != (j, g) {
      var k0 := if i == j && g < k then k - 1 else k;
      assert Listed(s.layout, i, k0) && s.layout[i].chunks[k0] == AfterMalloc(s, req).layout[i].chunks[k];
    }
  }

  /** kfree removes exactly the payload it is given. */
  lemma FreeRemoves(s: HeapState, i: int, k: int)
    requires Good(s) && Listed(s.layout, i, k)
    ensures forall p, n :: Holds(AfterFree(s, i, k).layout, p, n) <==>
              Holds(s.layout, p, n) && p != PayloadOf(s.layout[i].chunks[k].addr)
  {
    hide Release, PayloadOf, Sound;
    var l, l', q := s.layout, Release(s.layout, i, k), PayloadOf(s.layout[i].chunks[k].addr);
    forall p, n ensures Holds(l', p, n) <==> Holds(l, p, n) && p != q {
      if Holds(l', p, n) {
        var a', b' :| Listed(l', a', b') && HeldBy(l'[a'].chunks[b'], p, n);
        var a, b := Before(l, i, k, a', b');
        if p == q { SameMinor(l, i, k, a, b); }
      }
      if Holds(l, p, n) && p != q {
        var a, b :| Listed(l, a, b) && HeldBy(l[a].chunks[b], p, n);
        var a', b' := Behind(l, i, k, a, b);
        assert HeldBy(l'[a'].chunks[b'], p, n);
      }
    }
  }

  // Where a minor that is left after a kfree was before it.
  lemma Before(l: seq<Block>, i: int, k: int, a': int, b': int) returns (a: int, b: int)
    requires Listed(l, i, k) && Listed(Release(l, i, k), a', b')
    ensures Listed(l, a, b) && (a, b) != (i, k) && l[a].chunks[b] == Release(l, i, k)[a'].chunks[b']
  {
    a := if |l[i].chunks| == 1 && i <= a' then a' + 1 else a';
    b := if |l[i].chunks| != 1 && a == i && k <= b' then b' + 1 else b';
  }

  // ... and where a minor that is not freed is afterwards.
  lemma Behind(l: seq<Block>, i: int, k: int, a: int, b: int) returns (a': int, b': int)
    requires Listed(l, i, k) && Listed(l, a, b) && (a, b) != (i, k)
    ensures Listed(Release(l, i, k), a', b') && Release(l, i, k)[a'].chunks[b'] == l[a].chunks[b]
  {
    a' := if |l[i].chunks| == 1 && i < a then a - 1 else a;
    b' := if |l[i].chunks| != 1 && a == i && k < b then b - 1 else b;
  }

  lemma ShrinkReplaces(s: HeapState, i: int, k: int, req: int)
    requires Good(s) && Listed(s.layout, i, k)
    ensures var q := PayloadOf(s.layout[i].chunks[k].addr);
      forall p, n :: Holds(Resized(s.layout, i, k, req), p, n) <==>
        if p == q then n == req else Holds(s.layout, p, n)
  {
    hide PayloadOf, Sound;
    var l, l', q := s.layout, Resized(s.layout, i, k, req), PayloadOf(s.layout[i].chunks[k].addr);
    forall p, n ensures Holds(l', p, n) <==> if p == q then n == req else Holds(l, p, n) {
      assert Listed(l', i, k) && HeldBy(l'[i].chunks[k], q, req);
      if Holds(l', p, n) {
        var a, b :| Listed(l', a, b) && HeldBy(l'[a].chunks[b], p, n);
        assert Listed(l, a, b);
        if p == q { SameMinor(l, i, k, a, b); }
        else { assert HeldBy(l[a].chunks[b], p, n); }
      }
      if Holds(l, p, n) && p != q {
        var a, b :| Listed(l, a, b) && HeldBy(l[a].chunks[b], p, n);
        assert Listed(l', a, b) && HeldBy(l'[a].chunks[b], p, n);
      }
    }
  }

  lemma StepKeepsGood(s: HeapState, op: Op, s': HeapState)
    requires Good(s) && Step(s, op, s')
    ensures Good(s')
  {
    match op
    case Malloc(req, p) => MallocKeepsGood(s, req);
    case Free(p) =>
      var i, k :| Listed(s.layout, i, k) && PayloadOf(s.layout[i].chunks[k].addr) == p && s' == AfterFree(s, i, k);
      FreeKeepsGood(s, i, k);
    case Shrink(p, req) =>
      var i, k :| Listed(s.layout, i, k) && PayloadOf(s.layout[i].chunks[k].addr) == p &&
        0 <= req <= s.layout[i].chunks[k].req && s' == s.(layout := Resized(s.layout, i, k, req));
      ResizeKeepsGood(s, i, k, req);
  }

  lemma StepAgrees(s: HeapState, op: Op, s': HeapState, books: map<int, int>)
    requires Good(s) && Step(s, op, s') && Agrees(s.layout, books)
    ensures Agrees(s'.layout, Booked(books, op))
  {
    hide Holds, Good, AfterMalloc, Returned, Grows, CanGrow, Resized, PayloadOf;
    match op
    case Malloc(req, p) => MallocAdds(s, req);
    case Free(p) =>
      var i, k :| Listed(s.layout, i, k) && PayloadOf(s.layout[i].chunks[k].addr) == p && s' == AfterFree(s, i, k);
      assert s'.layout == AfterFree(s, i, k).layout;
      FreeRemoves(s, i, k);
    case Shrink(p, req) =>
      var i, k :| Listed(s.layout, i, k) && PayloadOf(s.layout[i].chunks[k].addr) == p &&
        0 <= req <= s.layout[i].chunks[k].req && s' == s.(layout := Resized(s.layout, i, k, req));
      ShrinkReplaces(s, i, k, req);
  }

  // -------------------------------------------------------------- whole runs

  /** After every history the layout is in order, and its live payloads are exactly
      those in the caller's books. */
  lemma {:induction false} RunsAreExact(ss: seq<HeapState>, ops: seq<Op>)
    requires Run(ss, ops)
    ensures Good(ss[|ops|]) && Agrees(ss[|ops|].layout, Books(ops))
  {
    var t := |ops| - 1;
    if ops != [] {
      RunsAreExact(ss[..t + 1], ops[..t]);
      assert Step(ss[t], ops[t], ss[t + 1]);
      StepKeepsGood(ss[t], ops[t], ss[t + 1]);
      StepAgrees(ss[t], ops[t], ss[t + 1], Books(ops[..t]));
    }
  }

  /** No two pointers in the books share a byte, and each is 16-byte aligned. */
  lemma BookedAreApart(ss: seq<HeapState>, ops: seq<Op>, p: int, q: int)
    requires Run(ss, ops) && p in Books(ops) && q in Books(ops) && p != q
    ensures p % ALIGNMENT == 0 && KHEAP_START < p && p + Books(ops)[p] <= KHEAP_END
    ensures p + Books(ops)[p] < q || q + Books(ops)[q] < p
  {
    RunsAreExact(ss, ops);
    var l, books := ss[|ops|].layout, Books(ops);
    assert Holds(l, p, books[p]) && Holds(l, q, books[q]);
    var i, k :| Listed(l, i, k) && HeldBy(l[i].chunks[k], p, books[p]);
    var j, n :| Listed(l, j, n) && HeldBy(l[j].chunks[n], q, books[q]);
    assert ChunkOk(l[i], l[i].chunks[k]) && ChunkOk(l[j], l[j].chunks[n]);
    assert Within(l[i], ss[|ops|].brk);
    BodiesApart(l, i, k, j, n);
  }

  /** Freeing the pointer kmalloc has just returned restores every major and minor,
      and with them both totals. */
  lemma FreeUndoesMalloc(s: HeapState, req: int)
    requires Good(s)
    ensures var s' := AfterMalloc(s, req); var i, k := Choose(s, req).index, GapFor(s, req);
      && BetListed(s'.layout, s'.bet) && Listed(s'.layout, i, k)
      && PayloadOf(s'.layout[i].chunks[k].addr) == Returned(s, req)
      && AfterFree(s', i, k).layout == s.layout
  {
    BetAfterMalloc(s, req);
    MallocKeepsMinors(s, req, 0, 0);
    if Grows(s, req) {
      ReleaseUndoesGrowth(s.layout, Fresh(s.brk, req), req);
    } else {
      ReleaseUndoesPlace(s.layout, Choose(s, req).index, GapFor(s, req), req);
    }
  }
}
