/** What the allocator's lists stand for: a list of majors (runs of pages), each
    with the minors (allocations) placed in it, in list order. */
module Layout {
  import opened Machine

  const PAGE_COUNT := 16      // the least number of pages asked for at a time
  const MAJOR_SIZE := 24      // sizeof(struct liballoc_major)
  const MINOR_SIZE := 24      // sizeof(struct liballoc_minor)
  const ALIGNMENT := 16
  const ALIGN_INFO := 16

  // A minor: its header is at addr, its size bytes follow the header.
  datatype Chunk = Chunk(addr: int, size: int, req: int)

  // A major: its header is at base, and it is pages long.
  datatype Block = Block(base: int, pages: int, chunks: seq<Chunk>)

  // The bytes a request is given on top of what was asked for, for alignment.
  function Padded(req: int): int { req + ALIGNMENT + ALIGN_INFO }

  function BodyOf(c: Chunk): int { c.addr + MINOR_SIZE }

  function EndOf(c: Chunk): int { c.addr + MINOR_SIZE + c.size }

  function Limit(b: Block): int { b.base + b.pages * PAGE_SIZE }

  // The free range number k of a major lies before its minor number k.
  function GapStart(b: Block, k: int): int
    requires 0 <= k <= |b.chunks|
  {
    if k == 0 then b.base + MAJOR_SIZE else EndOf(b.chunks[k - 1])
  }

  function GapEnd(b: Block, k: int): int
    requires 0 <= k <= |b.chunks|
  {
    if k == |b.chunks| then Limit(b) else b.chunks[k].addr
  }

  function Gap(b: Block, k: int): int
    requires 0 <= k <= |b.chunks|
  {
    GapEnd(b, k) - GapStart(b, k)
  }

  function Taken(cs: seq<Chunk>): int {
    if cs == [] then 0 else MINOR_SIZE + cs[0].size + Taken(cs[1..])
  }

  // The value the usage field has to have.
  function Usage(b: Block): int { MAJOR_SIZE + Taken(b.chunks) }

  function Free(b: Block): int { b.pages * PAGE_SIZE - Usage(b) }

  function SizeSum(cs: seq<Chunk>): int {
    if cs == [] then 0 else cs[0].size + SizeSum(cs[1..])
  }

  // l_inuse and l_allocated.
  function InUse(l: seq<Block>): int {
    if l == [] then 0 else SizeSum(l[0].chunks) + InUse(l[1..])
  }

  function Allocated(l: seq<Block>): int {
    if l == [] then 0 else l[0].pages * PAGE_SIZE + Allocated(l[1..])
  }

  // ---------------------------------------------------------------- invariant

  ghost predicate ChunkOk(b: Block, c: Chunk) {
    && 0 <= c.req && Padded(c.req) <= c.size
    && b.base + MAJOR_SIZE <= c.addr && EndOf(c) <= Limit(b)
  }

  /** The minors of a major lie inside it, in address order, and share no byte. */
  ghost predicate WellPlaced(b: Block) {
    && 0 < b.base && b.base % PAGE_SIZE == 0 && 0 < b.pages
    && (forall k :: 0 <= k < |b.chunks| ==> ChunkOk(b, b.chunks[k]))
    && (forall j, k :: 0 <= j < k < |b.chunks| ==> EndOf(b.chunks[j]) <= b.chunks[k].addr)
  }

  /** ... and the majors lie one after the other. */
  ghost predicate Sound(l: seq<Block>) {
    && (forall i :: 0 <= i < |l| ==> WellPlaced(l[i]))
    && (forall i, j :: 0 <= i < j < |l| ==> Limit(l[i]) <= l[j].base)
  }

  // Between calls no listed major is empty.
  ghost predicate NoneEmpty(l: seq<Block>) {
    forall i :: 0 <= i < |l| ==> l[i].chunks != []
  }

  ghost predicate Listed(l: seq<Block>, i: int, k: int) {
    0 <= i < |l| && 0 <= k < |l[i].chunks|
  }

  // ------------------------------------------------------------------ updates

  function Insert<T>(s: seq<T>, k: int, x: T): (r: seq<T>)
    requires 0 <= k <= |s|
    ensures |r| == |s| + 1
    ensures forall j :: 0 <= j < |r| ==> r[j] == if j < k then s[j] else if j == k then x else s[j - 1]
  {
    s[..k] + [x] + s[k..]
  }

  function Delete<T>(s: seq<T>, k: int): (r: seq<T>)
    requires 0 <= k < |s|
    ensures |r| == |s| - 1
    ensures forall j :: 0 <= j < |r| ==> r[j] == if j < k then s[j] else s[j + 1]
  {
    s[..k] + s[k + 1..]
  }

  function NewChunk(b: Block, k: int, req: int): Chunk
    requires 0 <= k <= |b.chunks|
  {
    Chunk(GapStart(b, k), Padded(req), req)
  }

  // Major b once a request has been put at the start of its gap k.
  function Carve(b: Block, k: int, req: int): Block
    requires 0 <= k <= |b.chunks|
  {
    b.(chunks := Insert(b.chunks, k, NewChunk(b, k, req)))
  }

  function Unlink(b: Block, k: int): Block
    requires 0 <= k < |b.chunks|
  {
    b.(chunks := Delete(b.chunks, k))
  }

  function Place(l: seq<Block>, i: int, k: int, req: int): seq<Block>
    requires 0 <= i < |l| && 0 <= k <= |l[i].chunks|
  {
    l[i := Carve(l[i], k, req)]
  }

  // The layout once minor k of major i is freed: an emptied major is given back.
  function Release(l: seq<Block>, i: int, k: int): seq<Block>
    requires 0 <= i < |l| && 0 <= k < |l[i].chunks|
  {
    if |l[i].chunks| == 1 then Delete(l, i) else l[i := Unlink(l[i], k)]
  }

  // ------------------------------------------------------------------- search

  // The first gap, from number k on, that holds need bytes; one past the last if none does.
  function FirstGap(b: Block, need: int, k: int): (g: int)
    requires 0 <= k <= |b.chunks| + 1
    ensures k <= g <= |b.chunks| + 1
    ensures g <= |b.chunks| ==> Gap(b, g) >= need
    ensures forall j :: k <= j < g ==> Gap(b, j) < need
    decreases |b.chunks| + 1 - k
  {
    if k > |b.chunks| then k
    else if Gap(b, k) >= need then k
    else FirstGap(b, need, k + 1)
  }

  // Some gap of b holds need bytes.
  ghost predicate HasRoom(b: Block, need: int) {
    exists k :: 0 <= k <= |b.chunks| && Gap(b, k) >= need
  }

  // The pages allocate_new_page asks for.
  function PagesFor(req: int): int {
    var st := Padded(req) + MAJOR_SIZE + MINOR_SIZE;
    var n := if st % PAGE_SIZE == 0 then st / PAGE_SIZE else st / PAGE_SIZE + 1;
    if n < PAGE_COUNT then PAGE_COUNT else n
  }

  // ------------------------------------------------------- accounting lemmas

  lemma {:induction false} TakenOfConcat(a: seq<Chunk>, b: seq<Chunk>)
    ensures Taken(a + b) == Taken(a) + Taken(b)
    ensures SizeSum(a + b) == SizeSum(a) + SizeSum(b)
  {
    if a == [] {
      assert a + b == b;
    } else {
      assert (a + b)[1..] == a[1..] + b;
      TakenOfConcat(a[1..], b);
    }
  }

  lemma {:induction false} TotalsOfConcat(a: seq<Block>, b: seq<Block>)
    ensures InUse(a + b) == InUse(a) + InUse(b)
    ensures Allocated(a + b) == Allocated(a) + Allocated(b)
  {
    if a == [] {
      assert a + b == b;
    } else {
      assert (a + b)[1..] == a[1..] + b;
      TotalsOfConcat(a[1..], b);
    }
  }

  lemma TotalsOfUpdate(l: seq<Block>, i: int, b: Block)
    requires 0 <= i < |l| && b.pages == l[i].pages
    ensures InUse(l[i := b]) == InUse(l) - SizeSum(l[i].chunks) + SizeSum(b.chunks)
    ensures Allocated(l[i := b]) == Allocated(l)
  {
    assert l == l[..i] + ([l[i]] + l[i + 1..]);
    assert l[i := b] == l[..i] + ([b] + l[i + 1..]);
    TotalsOfConcat(l[..i], [l[i]] + l[i + 1..]);
    TotalsOfConcat(l[..i], [b] + l[i + 1..]);
  }

  lemma TotalsOfDelete(l: seq<Block>, i: int)
    requires 0 <= i < |l|
    ensures InUse(Delete(l, i)) == InUse(l) - SizeSum(l[i].chunks)
    ensures Allocated(Delete(l, i)) == Allocated(l) - l[i].pages * PAGE_SIZE
  {
    assert l == l[..i] + ([l[i]] + l[i + 1..]);
    TotalsOfConcat(l[..i], [l[i]] + l[i + 1..]);
    TotalsOfConcat(l[..i], l[i + 1..]);
  }

  lemma SumsOfInsert(cs: seq<Chunk>, k: int, c: Chunk)
    requires 0 <= k <= |cs|
    ensures Taken(Insert(cs, k, c)) == Taken(cs) + MINOR_SIZE + c.size
    ensures SizeSum(Insert(cs, k, c)) == SizeSum(cs) + c.size
  {
    var front, back := cs[..k], cs[k..];
    assert cs == front + back && Insert(cs, k, c) == (front + [c]) + back;
    TakenOfConcat(front, back);
    TakenOfConcat(front, [c]);
    TakenOfConcat(front + [c], back);
  }

  lemma DeleteUndoesInsert<T>(s: seq<T>, k: int, x: T)
    requires 0 <= k <= |s|
    ensures Delete(Insert(s, k, x), k) == s
  {
  }

  lemma SumsOfDelete(cs: seq<Chunk>, k: int)
    requires 0 <= k < |cs|
    ensures Taken(Delete(cs, k)) == Taken(cs) - MINOR_SIZE - cs[k].size
    ensures SizeSum(Delete(cs, k)) == SizeSum(cs) - cs[k].size
  {
    assert cs == Insert(Delete(cs, k), k, cs[k]);
    SumsOfInsert(Delete(cs, k), k, cs[k]);
  }

  // The lengths of the first n gaps of b, added up.
  function GapSum(b: Block, n: int): int
    requires 0 <= n <= |b.chunks| + 1
  {
    if n == 0 then 0 else GapSum(b, n - 1) + Gap(b, n - 1)
  }

  lemma {:induction false} GapsUpTo(b: Block, n: int)
    requires 0 <= n <= |b.chunks|
    ensures GapSum(b, n) + MAJOR_SIZE + Taken(b.chunks[..n]) == GapStart(b, n) - b.base
  {
    if n != 0 {
      GapsUpTo(b, n - 1);
      assert b.chunks[..n] == b.chunks[..n - 1] + [b.chunks[n - 1]];
      TakenOfConcat(b.chunks[..n - 1], [b.chunks[n - 1]]);
    }
  }

  /** What the usage field leaves over is exactly the total length of the gaps. */
  lemma FreeIsGaps(b: Block)
    ensures Free(b) == GapSum(b, |b.chunks| + 1)
  {
    GapsUpTo(b, |b.chunks|);
    assert b.chunks[..|b.chunks|] == b.chunks;
  }

  lemma GapNonNegative(b: Block, k: int)
    requires WellPlaced(b) && 0 <= k <= |b.chunks|
    requires b.chunks == [] ==> MAJOR_SIZE <= b.pages * PAGE_SIZE
    ensures 0 <= Gap(b, k)
  {
  }

  lemma {:induction false} GapWithinSum(b: Block, k: int, n: int)
    requires WellPlaced(b) && 0 <= k < n <= |b.chunks| + 1
    ensures 0 <= GapSum(b, n - 1) && Gap(b, k) <= GapSum(b, n)
    decreases n
  {
    GapNonNegative(b, n - 1);
    if 1 < n {
      GapWithinSum(b, if k < n - 1 then k else n - 2, n - 1);
      GapNonNegative(b, n - 2);
    }
  }

  /** A major whose usage leaves less than need has no gap of need bytes: skipping
      it without looking at its minors is right. */
  lemma QuickRejectIsSound(b: Block, need: int)
    requires WellPlaced(b) && Free(b) < need
    ensures !HasRoom(b, need)
  {
    forall k | 0 <= k <= |b.chunks| ensures Gap(b, k) < need {
      GapWithinSum(b, k, |b.chunks| + 1);
      FreeIsGaps(b);
    }
  }

  lemma UsageWithinBlock(b: Block)
    requires WellPlaced(b)
    ensures MAJOR_SIZE <= Usage(b) <= b.pages * PAGE_SIZE
  {
    FreeIsGaps(b);
    GapWithinSum(b, 0, |b.chunks| + 1);
    GapNonNegative(b, |b.chunks|);
    TakenNonNegative(b, b.chunks);
  }

  lemma {:induction false} TakenNonNegative(b: Block, cs: seq<Chunk>)
    requires forall k :: 0 <= k < |cs| ==> ChunkOk(b, cs[k])
    ensures 0 <= Taken(cs)
  {
    if cs != [] {
      assert ChunkOk(b, cs[0]);
      TakenNonNegative(b, cs[1..]);
    }
  }

  // -------------------------------------------------------- placement lemmas

  lemma CarveKeepsOrder(b: Block, k: int, req: int)
    requires WellPlaced(b) && 0 <= k <= |b.chunks| && 0 <= req
    requires Gap(b, k) >= Padded(req) + MINOR_SIZE
    ensures WellPlaced(Carve(b, k, req))
  {
    var c := NewChunk(b, k, req);
    var b' := Carve(b, k, req);
    NewChunkFits(b, k, req);
    forall j | 0 <= j < |b'.chunks| ensures ChunkOk(b', b'.chunks[j]) {
      if j != k { assert ChunkOk(b, b.chunks[if j < k then j else j - 1]); }
    }
    forall i, j | 0 <= i < j < |b'.chunks| ensures EndOf(b'.chunks[i]) <= b'.chunks[j].addr {
      if i != k && j != k {
        var i0, j0 := if i < k then i else i - 1, if j < k then j else j - 1;
        assert EndOf(b.chunks[i0]) <= b.chunks[j0].addr;
      }
    }
  }

  // The new minor lies inside the major, behind all minors before the gap and
  // in front of all others.
  lemma NewChunkFits(b: Block, k: int, req: int)
    requires WellPlaced(b) && 0 <= k <= |b.chunks| && 0 <= req
    requires Gap(b, k) >= Padded(req) + MINOR_SIZE
    ensures ChunkOk(b, NewChunk(b, k, req))
    ensures forall i :: 0 <= i < k ==> EndOf(b.chunks[i]) <= GapStart(b, k)
    ensures forall j :: k <= j < |b.chunks| ==> GapEnd(b, k) <= b.chunks[j].addr
  {
  }

  lemma UsageOfCarve(b: Block, k: int, req: int)
    requires 0 <= k <= |b.chunks|
    ensures Usage(Carve(b, k, req)) == Usage(b) + MINOR_SIZE + Padded(req)
  {
    SumsOfInsert(b.chunks, k, NewChunk(b, k, req));
  }

  lemma UnlinkKeepsOrder(b: Block, k: int)
    requires WellPlaced(b) && 0 <= k < |b.chunks|
    ensures WellPlaced(Unlink(b, k))
  {
  }

  lemma PlaceKeepsSound(l: seq<Block>, i: int, k: int, req: int)
    requires Sound(l) && 0 <= i < |l| && 0 <= k <= |l[i].chunks| && 0 <= req
    requires Gap(l[i], k) >= Padded(req) + MINOR_SIZE
    ensures Sound(Place(l, i, k, req))
  {
    CarveKeepsOrder(l[i], k, req);
  }

  lemma TotalsOfPlace(l: seq<Block>, i: int, k: int, req: int)
    requires 0 <= i < |l| && 0 <= k <= |l[i].chunks|
    ensures InUse(Place(l, i, k, req)) == InUse(l) + Padded(req)
    ensures Allocated(Place(l, i, k, req)) == Allocated(l)
  {
    SumsOfInsert(l[i].chunks, k, NewChunk(l[i], k, req));
    TotalsOfUpdate(l, i, Carve(l[i], k, req));
  }

  lemma UsageOfUnlink(b: Block, k: int)
    requires 0 <= k < |b.chunks|
    ensures Usage(Unlink(b, k)) == Usage(b) - MINOR_SIZE - b.chunks[k].size
  {
    SumsOfDelete(b.chunks, k);
  }

  lemma ReleaseKeepsSound(l: seq<Block>, i: int, k: int)
    requires Sound(l) && NoneEmpty(l) && Listed(l, i, k)
    ensures Sound(Release(l, i, k)) && NoneEmpty(Release(l, i, k))
  {
    UnlinkKeepsOrder(l[i], k);
    var r := Release(l, i, k);
    if |l[i].chunks| == 1 {
      forall j | 0 <= j < |r| ensures WellPlaced(r[j]) && r[j].chunks != [] {
        assert r[j] == l[if j < i then j else j + 1];
      }
    }
  }

  lemma TotalsOfRelease(l: seq<Block>, i: int, k: int)
    requires Listed(l, i, k)
    ensures InUse(Release(l, i, k)) == InUse(l) - l[i].chunks[k].size
    ensures Allocated(Release(l, i, k)) ==
            Allocated(l) - (if |l[i].chunks| == 1 then l[i].pages * PAGE_SIZE else 0)
  {
    SumsOfDelete(l[i].chunks, k);
    if |l[i].chunks| == 1 {
      assert Delete(l[i].chunks, k) == [];
      TotalsOfDelete(l, i);
    } else {
      TotalsOfUpdate(l, i, Unlink(l[i], k));
    }
  }

  /** Freeing what was just placed restores the layout: in a listed major ... */
  lemma ReleaseUndoesPlace(l: seq<Block>, i: int, k: int, req: int)
    requires 0 <= i < |l| && 0 <= k <= |l[i].chunks| && l[i].chunks != []
    ensures Release(Place(l, i, k, req), i, k) == l
  {
    DeleteUndoesInsert(l[i].chunks, k, NewChunk(l[i], k, req));
  }

  /** ... and in one that was acquired for the request. */
  lemma ReleaseUndoesGrowth(l: seq<Block>, b: Block, req: int)
    requires b.chunks == []
    ensures Release(Place(l + [b], |l|, 0, req), |l|, 0) == l
  {
  }

  // ---------------------------------------------------------------- payloads

  // The address kmalloc returns for the minor at addr: past the header, past
  // the alignment byte, rounded up.
  function PayloadOf(addr: int): (p: int)
    ensures p % ALIGNMENT == 0
    ensures addr + MINOR_SIZE + ALIGN_INFO <= p < addr + MINOR_SIZE + ALIGN_INFO + ALIGNMENT
  {
    var p := addr + MINOR_SIZE + ALIGN_INFO;
    var diff := p % ALIGNMENT;
    if diff != 0 then p + (ALIGNMENT - diff) else p
  }

  // What ALIGN stores in front of the payload, for UNALIGN to find.
  function Shift(addr: int): int { PayloadOf(addr) - (addr + MINOR_SIZE) }

  // Address x lies in the payload a caller was given.
  predicate InPayload(c: Chunk, x: int) {
    PayloadOf(c.addr) <= x < PayloadOf(c.addr) + c.req
  }

  // Address x belongs to one of the headers of the layout.
  ghost predicate InHeader(l: seq<Block>, x: int) {
    exists i :: 0 <= i < |l| && InHeaderOf(l[i], x)
  }

  ghost predicate InHeaderOf(b: Block, x: int) {
    || b.base <= x < b.base + MAJOR_SIZE
    || exists k :: 0 <= k < |b.chunks| && b.chunks[k].addr <= x < BodyOf(b.chunks[k])
  }

  /** A payload lies in its own minor, meets no header, and meets no other payload. */
  lemma PayloadIsolation(l: seq<Block>, i: int, k: int, j: int, n: int, x: int)
    requires Sound(l) && Listed(l, i, k) && Listed(l, j, n)
    requires InPayload(l[i].chunks[k], x)
    ensures BodyOf(l[i].chunks[k]) < x < EndOf(l[i].chunks[k])
    ensures !InHeader(l, x)
    ensures (i, k) != (j, n) ==> !InPayload(l[j].chunks[n], x)
  {
  }

  lemma BodiesApart(l: seq<Block>, i: int, k: int, j: int, n: int)
    requires Sound(l) && Listed(l, i, k) && Listed(l, j, n) && (i, k) != (j, n)
    ensures var c, d := l[i].chunks[k], l[j].chunks[n];
      EndOf(c) <= BodyOf(d) - MINOR_SIZE || EndOf(d) <= BodyOf(c) - MINOR_SIZE
  {
  }
}
