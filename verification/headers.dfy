/** The allocator's structures in memory, and when memory holds a given layout. */
module Headers {
  import opened Machine
  import opened Memory
  import opened Layout

  const LIBALLOC_MAGIC := 0xc001_c0de
  const LIBALLOC_DEAD := 0xdead_dead

  datatype Major = Major(prev: int, next: int, pages: int, size: int, usage: int, first: int)

  datatype Minor = Minor(prev: int, next: int, block: int, magic: int, size: int, req: int)

  predicate Is32(x: int) { 0 <= x < WORD_RANGE }

  predicate MajorFits(h: Major) {
    Is32(h.prev) && Is32(h.next) && Is32(h.pages) && Is32(h.size) && Is32(h.usage) && Is32(h.first)
  }

  predicate MinorFits(h: Minor) {
    Is32(h.prev) && Is32(h.next) && Is32(h.block) && Is32(h.magic) && Is32(h.size) && Is32(h.req)
  }

  function MajorAt(m: seq<Byte>, a: int): Major
    requires 0 <= a && a + MAJOR_SIZE <= |m|
  {
    var ws := Unpack(m[a..a + MAJOR_SIZE]);
    Major(ws[0], ws[1], ws[2], ws[3], ws[4], ws[5])
  }

  function MinorAt(m: seq<Byte>, a: int): Minor
    requires 0 <= a && a + MINOR_SIZE <= |m|
  {
    var ws := Unpack(m[a..a + MINOR_SIZE]);
    Minor(ws[0], ws[1], ws[2], ws[3], ws[4], ws[5])
  }

  /** The fields of the two structures, in the order and at the offsets they have in memory. */
  lemma FieldsInOrder(m: seq<Byte>, a: int)
    requires 0 <= a && a + MAJOR_SIZE <= |m|
    ensures MajorAt(m, a) == Major(WordAt(m, a), WordAt(m, a + 4), WordAt(m, a + 8), WordAt(m, a + 12), WordAt(m, a + 16),
                                   WordAt(m, a + 20))
    ensures MinorAt(m, a) == Minor(WordAt(m, a), WordAt(m, a + 4), WordAt(m, a + 8), WordAt(m, a + 12), WordAt(m, a + 16),
                                   WordAt(m, a + 20))
  {
    var bs := m[a..a + MAJOR_SIZE];
    UnpackAt(bs, 0);
    UnpackAt(bs, 1);
    UnpackAt(bs, 2);
    UnpackAt(bs, 3);
    UnpackAt(bs, 4);
    UnpackAt(bs, 5);
  }

  function MajorBytes(h: Major): (bs: seq<Byte>)
    requires MajorFits(h)
    ensures |bs| == MAJOR_SIZE
  {
    Pack([h.prev, h.next, h.pages, h.size, h.usage, h.first])
  }

  function MinorBytes(h: Minor): (bs: seq<Byte>)
    requires MinorFits(h)
    ensures |bs| == MINOR_SIZE
  {
    Pack([h.prev, h.next, h.block, h.magic, h.size, h.req])
  }

  /** A header written to memory reads back as it was. */
  lemma ReadMajor(m: seq<Byte>, a: int, h: Major)
    requires 0 <= a && a + MAJOR_SIZE <= |m| && MajorFits(h)
    requires m[a..a + MAJOR_SIZE] == MajorBytes(h)
    ensures MajorAt(m, a) == h
  {
    UnpackOfPack([h.prev, h.next, h.pages, h.size, h.usage, h.first]);
  }

  lemma ReadMinor(m: seq<Byte>, a: int, h: Minor)
    requires 0 <= a && a + MINOR_SIZE <= |m| && MinorFits(h)
    requires m[a..a + MINOR_SIZE] == MinorBytes(h)
    ensures MinorAt(m, a) == h
  {
    UnpackOfPack([h.prev, h.next, h.block, h.magic, h.size, h.req]);
  }

  ghost predicate SameOn(m: seq<Byte>, m': seq<Byte>, a: int, n: int) {
    |m'| == |m| && forall x :: a <= x < a + n && 0 <= x < |m| ==> m'[x] == m[x]
  }

  lemma SameHeaders(m: seq<Byte>, m': seq<Byte>, a: int)
    requires 0 <= a && a + MAJOR_SIZE <= |m| && SameOn(m, m', a, MAJOR_SIZE)
    ensures MajorAt(m', a) == MajorAt(m, a)
    ensures MinorAt(m', a) == MinorAt(m, a)
  {
    assert m'[a..a + MAJOR_SIZE] == m[a..a + MAJOR_SIZE];
  }

  // ------------------------------------------------ what memory has to hold

  function MinorOf(b: Block, k: int): Minor
    requires 0 <= k < |b.chunks|
  {
    var c := b.chunks[k];
    Minor(if k == 0 then 0 else b.chunks[k - 1].addr,
          if k + 1 == |b.chunks| then 0 else b.chunks[k + 1].addr,
          b.base, LIBALLOC_MAGIC, c.size, c.req)
  }

  function MajorOf(b: Block, prev: int, next: int): Major {
    Major(prev, next, b.pages, b.pages * PAGE_SIZE, Usage(b),
          if b.chunks == [] then 0 else b.chunks[0].addr)
  }

  function PrevBase(l: seq<Block>, i: int): int
    requires 0 <= i < |l|
  {
    if i == 0 then 0 else l[i - 1].base
  }

  function NextBase(l: seq<Block>, i: int): int
    requires 0 <= i < |l|
  {
    if i + 1 == |l| then 0 else l[i + 1].base
  }

  // The header of minor k, and the byte ALIGN left in front of its payload.
  ghost predicate ChunkImage(m: seq<Byte>, b: Block, k: int)
    requires 0 <= k < |b.chunks|
  {
    var c := b.chunks[k];
    && 0 <= c.addr && PayloadOf(c.addr) <= |m|
    && MinorAt(m, c.addr) == MinorOf(b, k)
    && m[PayloadOf(c.addr) - ALIGN_INFO] == Shift(c.addr)
  }

  ghost predicate BlockImage(m: seq<Byte>, b: Block, prev: int, next: int) {
    && 0 <= b.base && b.base + MAJOR_SIZE <= |m|
    && MajorAt(m, b.base) == MajorOf(b, prev, next)
    && forall k :: 0 <= k < |b.chunks| ==> ChunkImage(m, b, k)
  }

  ghost predicate ImageAt(m: seq<Byte>, l: seq<Block>, i: int)
    requires 0 <= i < |l|
  {
    BlockImage(m, l[i], PrevBase(l, i), NextBase(l, i))
  }

  /** The two levels of doubly linked lists in memory are exactly the layout. */
  ghost predicate Image(m: seq<Byte>, l: seq<Block>) {
    forall i :: 0 <= i < |l| ==> ImageAt(m, l, i)
  }

  // ------------------------------------------------------------ frame lemmas

  lemma SameChunk(m: seq<Byte>, m': seq<Byte>, b: Block, k: int)
    requires 0 <= k < |b.chunks| && ChunkOk(b, b.chunks[k]) && 0 < b.base && ChunkImage(m, b, k)
    requires SameOn(m, m', b.chunks[k].addr, MINOR_SIZE + ALIGNMENT)
    ensures ChunkImage(m', b, k)
  {
    SameHeaders(m, m', b.chunks[k].addr);
  }

  lemma SameBlock(m: seq<Byte>, m': seq<Byte>, b: Block, prev: int, next: int)
    requires WellPlaced(b) && Limit(b) <= |m| && BlockImage(m, b, prev, next)
    requires SameOn(m, m', b.base, b.pages * PAGE_SIZE)
    ensures BlockImage(m', b, prev, next)
  {
    SameHeaders(m, m', b.base);
    forall k | 0 <= k < |b.chunks| ensures ChunkImage(m', b, k) {
      assert ChunkOk(b, b.chunks[k]);
      SameChunk(m, m', b, k);
    }
  }

  // Address x belongs to one of the headers that putting a minor into gap k of b
  // rewrites, or is the new alignment byte.
  ghost predicate CarveTouches(b: Block, k: int, x: int)
    requires 0 <= k <= |b.chunks|
  {
    || b.base <= x < b.base + MAJOR_SIZE
    || GapStart(b, k) <= x < GapStart(b, k) + MINOR_SIZE
    || (0 < k && b.chunks[k - 1].addr <= x < BodyOf(b.chunks[k - 1]))
    || (k < |b.chunks| && b.chunks[k].addr <= x < BodyOf(b.chunks[k]))
    || x == PayloadOf(GapStart(b, k)) - ALIGN_INFO
  }

  // m' is m after the stores that put a minor into gap k of b.
  ghost predicate Carved(m: seq<Byte>, m': seq<Byte>, b: Block, k: int, req: int, prev: int, next: int)
    requires 0 <= k <= |b.chunks|
  {
    var b' := Carve(b, k, req);
    && |m'| == |m| && 0 < b.base && Limit(b) <= |m|
    && MajorAt'(m', b.base, MajorOf(b', prev, next))
    && ChunkImage(m', b', k)
    && (0 < k ==> MinorAt'(m', b.chunks[k - 1].addr, MinorOf(b', k - 1)))
    && (k < |b.chunks| ==> MinorAt'(m', b.chunks[k].addr, MinorOf(b', k + 1)))
    && forall x :: 0 <= x < |m| && !CarveTouches(b, k, x) ==> m'[x] == m[x]
  }

  // The same before the alignment byte is set.
  ghost predicate HeadersCarved(m: seq<Byte>, m': seq<Byte>, b: Block, k: int, req: int, prev: int, next: int)
    requires 0 <= k <= |b.chunks|
  {
    var b' := Carve(b, k, req);
    && |m'| == |m| && 0 < b.base && Limit(b) <= |m|
    && MajorAt'(m', b.base, MajorOf(b', prev, next))
    && MinorAt'(m', GapStart(b, k), MinorOf(b', k))
    && (0 < k ==> MinorAt'(m', b.chunks[k - 1].addr, MinorOf(b', k - 1)))
    && (k < |b.chunks| ==> MinorAt'(m', b.chunks[k].addr, MinorOf(b', k + 1)))
    && forall x :: 0 <= x < |m| && !CarveTouches(b, k, x) ==> m'[x] == m[x]
  }

  ghost predicate MajorAt'(m: seq<Byte>, a: int, h: Major) {
    0 <= a && a + MAJOR_SIZE <= |m| && MajorAt(m, a) == h
  }

  ghost predicate MinorAt'(m: seq<Byte>, a: int, h: Minor) {
    0 <= a && a + MINOR_SIZE <= |m| && MinorAt(m, a) == h
  }

  lemma CarveImage(m: seq<Byte>, m': seq<Byte>, b: Block, k: int, req: int, prev: int, next: int)
    requires WellPlaced(b) && 0 <= k <= |b.chunks| && 0 <= req
    requires Gap(b, k) >= Padded(req) + MINOR_SIZE
    requires BlockImage(m, b, prev, next) && Carved(m, m', b, k, req, prev, next)
    ensures BlockImage(m', Carve(b, k, req), prev, next)
  {
    hide MinorAt;
    var b' := Carve(b, k, req);
    forall j | 0 <= j < |b'.chunks| ensures ChunkImage(m', b', j) {
      if j != k {
        var i := if j < k then j else j - 1;
        assert ChunkImage(m, b, i);
        assert ChunkOk(b, b.chunks[i]);
        CarveImageAt(m, m', b, k, i, b', j, NewChunk(b, k, req));
      }
    }
  }

  // The minor that was number i is number j of the carved major b'.
  lemma CarveImageAt(m: seq<Byte>, m': seq<Byte>, b: Block, k: int, i: int, b': Block, j: int, c: Chunk)
    requires WellPlaced(b) && 0 <= k <= |b.chunks| && Limit(b) <= |m|
    requires Gap(b, k) >= MINOR_SIZE + ALIGNMENT + ALIGN_INFO
    requires |m'| == |m| && forall x :: 0 <= x < |m| && !CarveTouches(b, k, x) ==> m'[x] == m[x]
    requires 0 <= i < |b.chunks| && ChunkImage(m, b, i) && ChunkOk(b, b.chunks[i])
    requires b' == b.(chunks := Insert(b.chunks, k, c))
    requires j == if i < k then i else i + 1
    requires i == k - 1 || i == k ==> MinorAt'(m', b.chunks[i].addr, MinorOf(b', j))
    ensures ChunkImage(m', b', j)
  {
    var cs := b.chunks;
    hide MinorAt, WellPlaced, CarveTouches, Gap;
    assert b'.chunks[j] == b.chunks[i];
    if i == k - 1 || i == k {
      CarveKeepsNeighbour(m, m', b, k, i, b', j);
    } else {
      CarveKeepsChunk(m, m', b, k, i);
      if 0 < i { assert Insert(cs, k, c)[j - 1] == cs[i - 1]; }
      if i + 1 < |cs| { assert Insert(cs, k, c)[j + 1] == cs[i + 1]; }
    }
  }

  lemma CarveKeepsNeighbour(m: seq<Byte>, m': seq<Byte>, b: Block, k: int, i: int, b': Block, j: int)
    requires WellPlaced(b) && 0 <= k <= |b.chunks| && Limit(b) <= |m|
    requires Gap(b, k) >= MINOR_SIZE + ALIGNMENT + ALIGN_INFO
    requires |m'| == |m| && forall x :: 0 <= x < |m| && !CarveTouches(b, k, x) ==> m'[x] == m[x]
    requires 0 <= i < |b.chunks| && (i == k - 1 || i == k)
    requires ChunkImage(m, b, i) && ChunkOk(b, b.chunks[i])
    requires 0 <= j < |b'.chunks| && b'.chunks[j] == b.chunks[i]
    requires MinorAt'(m', b.chunks[i].addr, MinorOf(b', j))
    ensures ChunkImage(m', b', j)
  {
    OutsideNeighbours(b, k, i, PayloadOf(b.chunks[i].addr) - ALIGN_INFO);
  }

  lemma CarveKeepsChunk(m: seq<Byte>, m': seq<Byte>, b: Block, k: int, i: int)
    requires WellPlaced(b) && 0 <= k <= |b.chunks| && Limit(b) <= |m|
    requires Gap(b, k) >= MINOR_SIZE + ALIGNMENT + ALIGN_INFO
    requires |m'| == |m| && forall x :: 0 <= x < |m| && !CarveTouches(b, k, x) ==> m'[x] == m[x]
    requires 0 <= i < |b.chunks| && i != k - 1 && i != k
    requires ChunkImage(m, b, i) && ChunkOk(b, b.chunks[i])
    ensures ChunkImage(m', b, i)
  {
    var c := b.chunks[i];
    forall x | c.addr <= x < EndOf(c) ensures !CarveTouches(b, k, x) {
      OutsideNeighbours(b, k, i, x);
    }
    SameChunk(m, m', b, i);
  }

  // Of minor j, carving gap k touches at most the header, and that only if j is next to the gap.
  lemma OutsideNeighbours(b: Block, k: int, j: int, x: int)
    requires WellPlaced(b) && 0 <= k <= |b.chunks| && 0 <= j < |b.chunks|
    requires b.chunks[j].addr <= x < EndOf(b.chunks[j])
    requires x < BodyOf(b.chunks[j]) ==> j != k - 1 && j != k
    requires Gap(b, k) >= MINOR_SIZE + ALIGNMENT + ALIGN_INFO
    ensures !CarveTouches(b, k, x)
  {
  }

  // ---------------------------------------------------------- whole layouts

  // No byte inside any of the listed minors differs.
  ghost predicate BodiesKept(m: seq<Byte>, m': seq<Byte>, l: seq<Block>) {
    forall i, k :: Listed(l, i, k) ==> SameOn(m, m', BodyOf(l[i].chunks[k]), l[i].chunks[k].size)
  }

  // Everything outside [a, a + n) is as it was.
  ghost predicate SameOutside(m: seq<Byte>, m': seq<Byte>, a: int, n: int) {
    |m'| == |m| && forall x :: 0 <= x < |m| && !(a <= x < a + n) ==> m'[x] == m[x]
  }

  ghost predicate InBounds(m: seq<Byte>, l: seq<Block>) {
    forall i :: 0 <= i < |l| ==> Limit(l[i]) <= |m|
  }

  lemma OtherBlocks(m: seq<Byte>, m': seq<Byte>, l: seq<Block>, i: int, j: int)
    requires Sound(l) && Image(m, l) && InBounds(m, l)
    requires 0 <= i < |l| && 0 <= j < |l| && i != j
    requires SameOutside(m, m', l[i].base, l[i].pages * PAGE_SIZE)
    ensures ImageAt(m', l, j)
  {
    hide MajorAt, MinorAt;
    assert WellPlaced(l[j]);
    assert ImageAt(m, l, j);
    assert Limit(l[i]) <= l[j].base || Limit(l[j]) <= l[i].base;
    SameBlock(m, m', l[j], PrevBase(l, j), NextBase(l, j));
  }

  lemma CarveStaysInside(m: seq<Byte>, m': seq<Byte>, b: Block, k: int, req: int, prev: int, next: int)
    requires WellPlaced(b) && 0 <= k <= |b.chunks| && 0 <= req
    requires Gap(b, k) >= Padded(req) + MINOR_SIZE && Carved(m, m', b, k, req, prev, next)
    ensures SameOutside(m, m', b.base, b.pages * PAGE_SIZE)
  {
    hide MajorAt, MinorAt;
    NewChunkFits(b, k, req);
    if 0 < k { assert ChunkOk(b, b.chunks[k - 1]); }
    if k < |b.chunks| { assert ChunkOk(b, b.chunks[k]); }
    forall x | CarveTouches(b, k, x) ensures b.base <= x < Limit(b) {
    }
  }

  // Replacing the minors of one major leaves the list of majors as it is.
  lemma UpdateImage(m: seq<Byte>, m': seq<Byte>, l: seq<Block>, i: int, b: Block)
    requires Sound(l) && Image(m, l) && InBounds(m, l) && 0 <= i < |l|
    requires b.base == l[i].base && b.pages == l[i].pages
    requires SameOutside(m, m', b.base, b.pages * PAGE_SIZE)
    requires BlockImage(m', b, PrevBase(l, i), NextBase(l, i))
    ensures Image(m', l[i := b])
  {
    hide BlockImage, Sound, SameOutside;
    var l' := l[i := b];
    forall j | 0 <= j < |l'| ensures ImageAt(m', l', j) {
      assert PrevBase(l', j) == PrevBase(l, j) && NextBase(l', j) == NextBase(l, j);
      if j != i { OtherBlocks(m, m', l, i, j); }
    }
  }

  /** After the stores of CASE 2, 3, 4.1 or 4.2 memory holds the layout with the new minor. */
  lemma PlaceImage(m: seq<Byte>, m': seq<Byte>, l: seq<Block>, i: int, k: int, req: int)
    requires Sound(l) && Image(m, l) && InBounds(m, l)
    requires 0 <= i < |l| && 0 <= k <= |l[i].chunks| && 0 <= req
    requires Gap(l[i], k) >= Padded(req) + MINOR_SIZE
    requires Carved(m, m', l[i], k, req, PrevBase(l, i), NextBase(l, i))
    ensures Image(m', Place(l, i, k, req))
  {
    hide BlockImage, Carved, SameOutside;
    assert ImageAt(m, l, i);
    CarveStaysInside(m, m', l[i], k, req, PrevBase(l, i), NextBase(l, i));
    CarveImage(m, m', l[i], k, req, PrevBase(l, i), NextBase(l, i));
    UpdateImage(m, m', l, i, Carve(l[i], k, req));
  }

  lemma PlaceKeepsBodies(m: seq<Byte>, m': seq<Byte>, l: seq<Block>, i: int, k: int, req: int)
    requires Sound(l) && InBounds(m, l)
    requires 0 <= i < |l| && 0 <= k <= |l[i].chunks| && 0 <= req
    requires Gap(l[i], k) >= Padded(req) + MINOR_SIZE
    requires Carved(m, m', l[i], k, req, PrevBase(l, i), NextBase(l, i))
    ensures BodiesKept(m, m', l)
  {
    hide MajorAt, MinorAt;
    CarveStaysInside(m, m', l[i], k, req, PrevBase(l, i), NextBase(l, i));
    forall j, n | Listed(l, j, n)
      ensures SameOn(m, m', BodyOf(l[j].chunks[n]), l[j].chunks[n].size)
    {
      var c := l[j].chunks[n];
      assert ChunkOk(l[j], c);
      if j == i {
        forall x | BodyOf(c) <= x < EndOf(c) ensures !CarveTouches(l[i], k, x) {
          OutsideNeighbours(l[i], k, n, x);
        }
      }
    }
  }

  // ------------------------------------------------------------ unlinking

  // Address x belongs to a header that unlinking minor k of b rewrites.
  ghost predicate UnlinkTouches(b: Block, k: int, x: int)
    requires 0 <= k < |b.chunks|
  {
    || b.base <= x < b.base + MAJOR_SIZE
    || b.chunks[k].addr <= x < BodyOf(b.chunks[k])
    || (0 < k && b.chunks[k - 1].addr <= x < BodyOf(b.chunks[k - 1]))
    || (k + 1 < |b.chunks| && b.chunks[k + 1].addr <= x < BodyOf(b.chunks[k + 1]))
  }

  // m' is m after the stores that unlink minor k from b.
  ghost predicate Unlinked(m: seq<Byte>, m': seq<Byte>, b: Block, k: int, prev: int, next: int)
    requires 0 <= k < |b.chunks|
  {
    var b' := Unlink(b, k);
    && |m'| == |m| && 0 < b.base && Limit(b) <= |m|
    && MajorAt'(m', b.base, MajorOf(b', prev, next))
    && (0 < k ==> MinorAt'(m', b.chunks[k - 1].addr, MinorOf(b', k - 1)))
    && (k + 1 < |b.chunks| ==> MinorAt'(m', b.chunks[k + 1].addr, MinorOf(b', k)))
    && forall x :: 0 <= x < |m| && !UnlinkTouches(b, k, x) ==> m'[x] == m[x]
  }

  // Of another minor j, unlinking minor k touches at most the header, and that only if j is next to k.
  lemma OutsideUnlink(b: Block, k: int, j: int, x: int)
    requires WellPlaced(b) && 0 <= k < |b.chunks| && 0 <= j < |b.chunks| && j != k
    requires b.chunks[j].addr <= x < EndOf(b.chunks[j])
    requires x < BodyOf(b.chunks[j]) ==> j != k - 1 && j != k + 1
    ensures !UnlinkTouches(b, k, x)
  {
  }

  lemma UnlinkImageAt(m: seq<Byte>, m': seq<Byte>, b: Block, k: int, i: int, j: int)
    requires WellPlaced(b) && 0 <= k < |b.chunks| && Limit(b) <= |m|
    requires |m'| == |m| && forall x :: 0 <= x < |m| && !UnlinkTouches(b, k, x) ==> m'[x] == m[x]
    requires 0 < b.base && 0 <= i < |b.chunks| && i != k && ChunkImage(m, b, i) && ChunkOk(b, b.chunks[i])
    requires j == if i < k then i else i - 1
    requires i == k - 1 || i == k + 1 ==> MinorAt'(m', b.chunks[i].addr, MinorOf(Unlink(b, k), j))
    ensures ChunkImage(m', Unlink(b, k), j)
  {
    hide MinorAt, WellPlaced, UnlinkTouches;
    var c, cs := b.chunks[i], b.chunks;
    if i == k - 1 || i == k + 1 {
      OutsideUnlink(b, k, i, PayloadOf(c.addr) - ALIGN_INFO);
    } else {
      forall x | c.addr <= x < EndOf(c) ensures !UnlinkTouches(b, k, x) {
        OutsideUnlink(b, k, i, x);
      }
      SameChunk(m, m', b, i);
      if 0 < i { assert Delete(cs, k)[j - 1] == cs[i - 1]; }
      if i + 1 < |cs| { assert Delete(cs, k)[j + 1] == cs[i + 1]; }
    }
  }

  lemma UnlinkImage(m: seq<Byte>, m': seq<Byte>, b: Block, k: int, prev: int, next: int)
    requires WellPlaced(b) && 0 <= k < |b.chunks|
    requires BlockImage(m, b, prev, next) && Unlinked(m, m', b, k, prev, next)
    ensures BlockImage(m', Unlink(b, k), prev, next)
    ensures SameOutside(m, m', b.base, b.pages * PAGE_SIZE)
  {
    hide MajorAt, MinorAt;
    var b' := Unlink(b, k);
    forall j | 0 <= j < |b'.chunks| ensures ChunkImage(m', b', j) {
      var i := if j < k then j else j + 1;
      assert ChunkImage(m, b, i);
      assert ChunkOk(b, b.chunks[i]);
      UnlinkImageAt(m, m', b, k, i, j);
    }
    assert ChunkOk(b, b.chunks[k]);
    if 0 < k { assert ChunkOk(b, b.chunks[k - 1]); }
    if k + 1 < |b.chunks| { assert ChunkOk(b, b.chunks[k + 1]); }
  }

  // A major whose list pointers alone were rewritten.
  lemma RelinkBlock(m: seq<Byte>, m': seq<Byte>, b: Block, prev: int, next: int, prev': int, next': int)
    requires WellPlaced(b) && Limit(b) <= |m| && BlockImage(m, b, prev, next)
    requires MajorAt'(m', b.base, MajorOf(b, prev', next'))
    requires SameOn(m, m', b.base + MAJOR_SIZE, b.pages * PAGE_SIZE - MAJOR_SIZE)
    ensures BlockImage(m', b, prev', next')
  {
    hide MinorAt, MajorAt, Usage;
    forall k | 0 <= k < |b.chunks| ensures ChunkImage(m', b, k) {
      assert ChunkOk(b, b.chunks[k]);
      SameChunk(m, m', b, k);
    }
  }

  ghost predicate InMajorHeader(b: Block, x: int) { b.base <= x < b.base + MAJOR_SIZE }

  // Address x belongs to the major number i or to the header of one of its neighbours.
  ghost predicate DropTouches(l: seq<Block>, i: int, x: int)
    requires 0 <= i < |l|
  {
    || l[i].base <= x < Limit(l[i])
    || (0 < i && InMajorHeader(l[i - 1], x))
    || (i + 1 < |l| && InMajorHeader(l[i + 1], x))
  }

  // m' is m after the stores that take major i off the list.
  ghost predicate Dropped(m: seq<Byte>, m': seq<Byte>, l: seq<Block>, i: int)
    requires 0 <= i < |l|
  {
    && |m'| == |m|
    && (0 < i ==> MajorAt'(m', l[i - 1].base, MajorOf(l[i - 1], PrevBase(l, i - 1), NextBase(l, i))))
    && (i + 1 < |l| ==> MajorAt'(m', l[i + 1].base, MajorOf(l[i + 1], PrevBase(l, i), NextBase(l, i + 1))))
    && forall x :: 0 <= x < |m| && !DropTouches(l, i, x) ==> m'[x] == m[x]
  }

  /** Unlinking a major from the list of majors. */
  lemma DropImage(m: seq<Byte>, m': seq<Byte>, l: seq<Block>, i: int)
    requires Sound(l) && Image(m, l) && InBounds(m, l) && 0 <= i < |l| && Dropped(m, m', l, i)
    ensures Image(m', Delete(l, i))
  {
    hide MajorAt, MinorAt, MajorOf, BlockImage, Dropped, Sound;
    var l' := Delete(l, i);
    forall j | 0 <= j < |l'| ensures ImageAt(m', l', j) {
      var n := if j < i then j else j + 1;
      assert ImageAt(m, l, n);
      DropImageAt(m, m', l, i, n);
    }
  }

  lemma DropImageAt(m: seq<Byte>, m': seq<Byte>, l: seq<Block>, i: int, n: int)
    requires Sound(l) && InBounds(m, l) && 0 <= i < |l| && Dropped(m, m', l, i)
    requires 0 <= n < |l| && n != i && ImageAt(m, l, n)
    ensures BlockImage(m', l[n], if n == i + 1 then PrevBase(l, i) else PrevBase(l, n),
                       if n == i - 1 then NextBase(l, i) else NextBase(l, n))
  {
    hide MajorAt, MinorAt, MajorOf, BlockImage;
    DropKeeps(l, i, n);
    if n == i - 1 || n == i + 1 {
      RelinkBlock(m, m', l[n], PrevBase(l, n), NextBase(l, n),
                  if n == i + 1 then PrevBase(l, i) else PrevBase(l, n),
                  if n == i - 1 then NextBase(l, i) else NextBase(l, n));
    } else {
      SameBlock(m, m', l[n], PrevBase(l, n), NextBase(l, n));
    }
  }

  lemma DropKeeps(l: seq<Block>, i: int, n: int)
    requires Sound(l) && 0 <= i < |l| && 0 <= n < |l| && n != i
    ensures forall x :: l[n].base + MAJOR_SIZE <= x < Limit(l[n]) ==> !DropTouches(l, i, x)
    ensures n != i - 1 && n != i + 1 ==> forall x :: l[n].base <= x < Limit(l[n]) ==> !DropTouches(l, i, x)
  {
  }

  ghost predicate AppendTouches(l: seq<Block>, b: Block, x: int) {
    InMajorHeader(b, x) || (l != [] && InMajorHeader(l[|l| - 1], x))
  }

  /** Appending a fresh major to the list of majors. */
  lemma AppendImage(m: seq<Byte>, m': seq<Byte>, l: seq<Block>, b: Block)
    requires Sound(l + [b]) && Image(m, l) && InBounds(m, l) && b.chunks == [] && |m'| == |m|
    requires MajorAt'(m', b.base, MajorOf(b, if l == [] then 0 else l[|l| - 1].base, 0))
    requires l != [] ==>
               MajorAt'(m', l[|l| - 1].base, MajorOf(l[|l| - 1], PrevBase(l, |l| - 1), b.base))
    requires forall x :: 0 <= x < |m| && !AppendTouches(l, b, x) ==> m'[x] == m[x]
    ensures Image(m', l + [b])
  {
    hide MajorAt, MinorAt, MajorOf, BlockImage;
    var l' := l + [b];
    var z := |l| - 1;
    forall j | 0 <= j < |l| ensures ImageAt(m', l', j) {
      assert l'[j] == l[j] && WellPlaced(l'[j]);
      assert ImageAt(m, l, j);
      assert Limit(l'[j]) <= l'[|l|].base;
      assert j < z ==> Limit(l'[j]) <= l'[z].base;
      if j == z {
        RelinkBlock(m, m', l[j], PrevBase(l, j), NextBase(l, j), PrevBase(l', j), NextBase(l', j));
      } else {
        SameBlock(m, m', l[j], PrevBase(l, j), NextBase(l, j));
      }
    }
    FreshImage(m', b, PrevBase(l', |l|));
  }

  lemma FreshImage(m: seq<Byte>, b: Block, prev: int)
    requires b.chunks == [] && MajorAt'(m, b.base, MajorOf(b, prev, 0))
    ensures BlockImage(m, b, prev, 0)
  {
  }
}
