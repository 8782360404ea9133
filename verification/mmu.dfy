/** Physical memory as 32-bit words, and the 32-bit page walk of section 4.3 of the
    Intel SDM, volume 3A (4 KiB pages). */
module Mmu {
  import opened Machine

  const ENTRIES := 1024                 // words in a directory, a table, a page
  const FRAMES := 0x10_0000
  const SELF := 1023                    // the directory slot that holds the directory
  const DIR_WINDOW := 0xFFFF_F000       // where the directory shows up
  const TABLE_WINDOW := 0xFFC0_0000     // where the tables show up

  type Phys = seq<Word32>

  function DirIndex(va: int): int { va / 0x40_0000 }

  function TableIndex(va: int): int { va / PAGE_SIZE % ENTRIES }

  function Offset(va: int): int { va % PAGE_SIZE }

  // Bit fields of an entry: present is bit 0, rw bit 1, user bit 2, address bits 12 to 31.
  predicate Present(w: Word32) { w % 2 == 1 }

  predicate Writable(w: Word32) { w / 2 % 2 == 1 }

  predicate ForUser(w: Word32) { w / 4 % 2 == 1 }

  function FrameOf(w: Word32): (f: int)
    ensures 0 <= f < FRAMES
  {
    w / PAGE_SIZE
  }

  function Flag(b: bool, weight: int): int { if b then weight else 0 }

  // An entry put together from its address and its low twelve bits.
  function Combined(frame: int, low: int): (r: Word32)
    requires 0 <= frame < FRAMES && 0 <= low < PAGE_SIZE
    ensures FrameOf(r) == frame && LowBits(r) == low && (Present(r) <==> low % 2 == 1)
    ensures Writable(r) <==> low / 2 % 2 == 1
    ensures ForUser(r) <==> low / 4 % 2 == 1
  {
    LowBitsStay(frame, low);
    frame * PAGE_SIZE + low
  }

  lemma LowBitsStay(frame: int, low: int)
    requires 0 <= low < PAGE_SIZE
    ensures var w := frame * PAGE_SIZE + low;
      w / PAGE_SIZE == frame && w % PAGE_SIZE == low && w % 2 == low % 2 && w / 2 % 2 == low / 2 % 2 && w / 4 % 2 == low / 4 % 2
  {
    var w := frame * PAGE_SIZE + low;
    assert w % 2 == low % 2 by { Multiple(frame * 2048, low, 2); }
    assert w / 2 == frame * 2048 + low / 2 by { Multiple(frame * 2048, low, 2); }
    assert w / 2 % 2 == low / 2 % 2 by { Multiple(frame * 1024, low / 2, 2); }
    assert w / 4 == frame * 1024 + low / 4 by { Multiple(frame * 1024, low, 4); }
    assert w / 4 % 2 == low / 4 % 2 by { Multiple(frame * 512, low / 4, 2); }
    Multiple(frame, low, PAGE_SIZE);
  }

  lemma Multiple(q: int, r: int, n: int)
    requires n == 2 || n == 4 || n == PAGE_SIZE
    ensures (n * q + r) / n == q + r / n && (n * q + r) % n == r % n
  {
  }

  function LowBits(w: Word32): int { w % PAGE_SIZE }

  // An entry whose present, rw and user bits are set, the others kept.
  function WithFlags(w: Word32, rw: bool, user: bool): (r: Word32)
    ensures Present(r) && FrameOf(r) == FrameOf(w) && (Writable(r) <==> rw) && (ForUser(r) <==> user)
  {
    Combined(FrameOf(w), Flagged(LowBits(w), rw, user))
  }

  function Flagged(low: int, rw: bool, user: bool): (r: int)
    requires 0 <= low < PAGE_SIZE
    ensures 0 <= r < PAGE_SIZE && r % 2 == 1 && (r / 2 % 2 == 1 <==> rw) && (r / 4 % 2 == 1 <==> user)
  {
    low / 8 * 8 + Flag(user, 4) + Flag(rw, 2) + 1
  }

  function WithAddress(w: Word32, frame: int): (r: Word32)
    requires 0 <= frame < FRAMES
    ensures FrameOf(r) == frame && (Present(r) <==> Present(w))
    ensures (Writable(r) <==> Writable(w)) && (ForUser(r) <==> ForUser(w))
  {
    LowBitsStay(FrameOf(w), LowBits(w));
    Combined(frame, LowBits(w))
  }

  function Entry(w: Word32, frame: int, rw: bool, user: bool): (r: Word32)
    requires 0 <= frame < FRAMES
    ensures Present(r) && FrameOf(r) == frame && (Writable(r) <==> rw) && (ForUser(r) <==> user)
  {
    WithAddress(WithFlags(w, rw, user), frame)
  }

  ghost predicate IsPhys(ph: Phys) { |ph| == FRAMES * ENTRIES }

  // Word number i of a frame.
  function At(frame: int, i: int): int { frame * ENTRIES + i }

  function Read(ph: Phys, frame: int, i: int): Word32
    requires IsPhys(ph) && 0 <= frame < FRAMES && 0 <= i < ENTRIES
  {
    ph[At(frame, i)]
  }

  function Write(ph: Phys, frame: int, i: int, w: Word32): (r: Phys)
    requires IsPhys(ph) && 0 <= frame < FRAMES && 0 <= i < ENTRIES
    ensures IsPhys(r)
    ensures forall f, j :: 0 <= f < FRAMES && 0 <= j < ENTRIES ==>
      Read(r, f, j) == if f == frame && j == i then w else Read(ph, f, j)
  {
    ph[At(frame, i) := w]
  }

  lemma WriteIs(ph: Phys, frame: int, i: int, w: Word32)
    requires IsPhys(ph) && 0 <= frame < FRAMES && 0 <= i < ENTRIES
    ensures Write(ph, frame, i, w) == ph[At(frame, i) := w]
  {
  }

  function Zeroed(ph: Phys, frame: int): (r: Phys)
    requires IsPhys(ph) && 0 <= frame < FRAMES
    ensures IsPhys(r)
    ensures forall f, j :: 0 <= f < FRAMES && 0 <= j < ENTRIES ==>
      Read(r, f, j) == if f == frame then 0 else Read(ph, f, j)
  {
    ph[..At(frame, 0)] + seq(ENTRIES, _ => 0) + ph[At(frame + 1, 0)..]
  }

  /** Memories that agree word by word are the same. */
  lemma SameWords(p: Phys, q: Phys)
    requires IsPhys(p) && IsPhys(q)
    requires forall f, j :: 0 <= f < FRAMES && 0 <= j < ENTRIES ==> Read(p, f, j) == Read(q, f, j)
    ensures p == q
  {
    forall x | 0 <= x < |p| ensures p[x] == q[x] {
      assert Read(p, x / ENTRIES, x % ENTRIES) == Read(q, x / ENTRIES, x % ENTRIES);
    }
  }

  // The directory entry for va, and the table entry for va behind a present one.
  function Pde(ph: Phys, root: int, d: int): Word32
    requires IsPhys(ph) && 0 <= root < FRAMES && 0 <= d < ENTRIES
  {
    Read(ph, root, d)
  }

  function Pte(ph: Phys, root: int, d: int, t: int): Word32
    requires IsPhys(ph) && 0 <= root < FRAMES && 0 <= d < ENTRIES && 0 <= t < ENTRIES
  {
    Read(ph, FrameOf(Pde(ph, root, d)), t)
  }

  ghost predicate Address(va: int) { 0 <= va < WORD_RANGE }

  // Where a linear address leads, and whether it can be written to and be reached in user mode.
  datatype Reach = Reach(pa: int, write: bool, user: bool)

  // A page of the kernel's own, and one of them that is only to be read.
  function KernelPage(pa: int): Option<Reach> { Some(Reach(pa, true, false)) }

  function ReadOnlyPage(pa: int): Option<Reach> { Some(Reach(pa, false, false)) }

  /** What the processor makes of a linear address.  Directory and table entry both have to
      allow an access (section 4.6). */
  function Walk(ph: Phys, root: int, va: int): (r: Option<Reach>)
    requires IsPhys(ph) && 0 <= root < FRAMES && Address(va)
    ensures r.Some? ==> 0 <= r.value.pa < WORD_RANGE
  {
    var d, t := DirIndex(va), TableIndex(va);
    if !Present(Pde(ph, root, d)) then None
    else if !Present(Pte(ph, root, d, t)) then None
    else
      var pde, pte := Pde(ph, root, d), Pte(ph, root, d, t);
      Some(Reach(FrameOf(pte) * PAGE_SIZE + Offset(va), Writable(pde) && Writable(pte), ForUser(pde) && ForUser(pte)))
  }

  // The physical address alone.
  function PhysicalOf(r: Option<Reach>): Option<int> { if r.Some? then Some(r.value.pa) else None }

  // The directory is its own last entry.
  ghost predicate SelfMapped(ph: Phys, root: int)
    requires IsPhys(ph) && 0 <= root < FRAMES
  {
    Present(Pde(ph, root, SELF)) && FrameOf(Pde(ph, root, SELF)) == root
  }

  // Physical address of word i of a frame.
  function WordAddress(frame: int, i: int): int { frame * PAGE_SIZE + 4 * i }

  /** Through the self-map the last page of the address space is the directory ... */
  lemma DirectoryWindow(ph: Phys, root: int, d: int)
    requires IsPhys(ph) && 0 <= root < FRAMES && SelfMapped(ph, root) && 0 <= d < ENTRIES
    ensures PhysicalOf(Walk(ph, root, DIR_WINDOW + 4 * d)) == Some(WordAddress(root, d))
  {
  }

  /** ... and the 4 MiB before its end are the tables, one after the other. */
  lemma TableWindow(ph: Phys, root: int, d: int, t: int)
    requires IsPhys(ph) && 0 <= root < FRAMES && SelfMapped(ph, root)
    requires 0 <= d < ENTRIES && 0 <= t < ENTRIES && Present(Pde(ph, root, d))
    ensures PhysicalOf(Walk(ph, root, TABLE_WINDOW + PAGE_SIZE * d + 4 * t))
         == Some(WordAddress(FrameOf(Pde(ph, root, d)), t))
  {
  }

  /** A word access through the walk reaches the word the walk names. */
  lemma WordOfAddress(frame: int, i: int)
    requires 0 <= frame < FRAMES && 0 <= i < ENTRIES
    ensures WordAddress(frame, i) % 4 == 0 && WordAddress(frame, i) / 4 == At(frame, i)
  {
    assert WordAddress(frame, i) == 4 * At(frame, i);
  }

  // virt_to_phys: the same walk made in software, through the windows.
  function VirtToPhys(ph: Phys, root: int, va: int): Option<int>
    requires IsPhys(ph) && 0 <= root < FRAMES && SelfMapped(ph, root) && Address(va)
  {
    var d, t := DirIndex(va), TableIndex(va);
    DirectoryWindow(ph, root, d);
    WordOfAddress(root, d);
    var pde := ph[Walk(ph, root, DIR_WINDOW + 4 * d).value.pa / 4];
    if !Present(pde) then None else
    TableWindow(ph, root, d, t);
    WordOfAddress(FrameOf(pde), t);
    var pte := ph[Walk(ph, root, TABLE_WINDOW + PAGE_SIZE * d + 4 * t).value.pa / 4];
    if !Present(pte) then None
    else Some(pte / PAGE_SIZE * PAGE_SIZE + va % PAGE_SIZE)
  }

  /** The software walk through the windows agrees with the processor, on every address. */
  lemma VirtToPhysIsWalk(ph: Phys, root: int, va: int)
    requires IsPhys(ph) && 0 <= root < FRAMES && SelfMapped(ph, root) && Address(va)
    ensures VirtToPhys(ph, root, va) == PhysicalOf(Walk(ph, root, va))
  {
    var d, t := DirIndex(va), TableIndex(va);
    DirectoryWindow(ph, root, d);
    WordOfAddress(root, d);
    if Present(Pde(ph, root, d)) {
      TableWindow(ph, root, d, t);
      WordOfAddress(FrameOf(Pde(ph, root, d)), t);
    }
  }
}
