// The IRQ mask, its copy in the two interrupt controllers, and the critical regions that
// mask the timer (kernel/arch/i386/interrupt.c, kernel/include/kernel/interrupt.h).
module Interrupts {

  const IRQ_PIT: Irq := 0
  const CASCADE: Irq := 2
  // The numbers VALID_IRQ lets through.
  type Irq = bv4

  // I/O ports
  const PIC_MASTER_CMD := 0x20
  const PIC_MASTER_DATA := 0x21
  const PIC_SLAVE_CMD := 0xA0
  const PIC_SLAVE_DATA := 0xA1

  const EOI: bv8 := 0x20

  // ------------------------------------------------------------- the chip

  // One 8259.  expected numbers the initialisation word its data port takes next; 0 if
  // the port is the mask register.  isr has the interrupts that are being served.
  datatype Chip = Chip(imr: bv8, isr: bv8, expected: int, vector: bv8, cascade: bv8, mode: bv8)

  // A byte for the command port: ICW1, which starts over; OCW2 with the code of an end of
  // interrupt, which ends the most urgent one in service, the lowest; or something else,
  // which leaves the registers here alone.
  function Commanded(c: Chip, v: bv8): Chip {
    if v & 0x10 != 0 then c.(imr := 0, expected := 2)
    else if v & 0xF8 == 0x20 then c.(isr := WithoutLowest(c.isr))
    else c
  }

  function WithoutLowest(isr: bv8): bv8 { isr & (isr - 1) }

  function Supplied(c: Chip, v: bv8): Chip {
    match c.expected
    case 2 => c.(vector := v, expected := 3)
    case 3 => c.(cascade := v, expected := 4)
    case 4 => c.(mode := v, expected := 0)
    case _ => c.(imr := v)
  }

  datatype Pair = Pair(master: Chip, slave: Chip)

  // The chips after v is written to one of their ports.
  function Written(p: Pair, port: int, v: bv8): Pair {
    if port == PIC_MASTER_CMD then p.(master := Commanded(p.master, v))
    else if port == PIC_MASTER_DATA then p.(master := Supplied(p.master, v))
    else if port == PIC_SLAVE_CMD then p.(slave := Commanded(p.slave, v))
    else if port == PIC_SLAVE_DATA then p.(slave := Supplied(p.slave, v))
    else p
  }

  // One byte to each chip.
  function Both(p: Pair, master: bv8, slave: bv8): Pair {
    Written(Written(p, PIC_MASTER_DATA, master), PIC_SLAVE_DATA, slave)
  }

  // ICW1 to ICW4 and then the masks, from any state.
  lemma Initialised(p: Pair)
    ensures var q := Written(Written(p, PIC_MASTER_CMD, 0x11), PIC_SLAVE_CMD, 0x11);
      Both(Both(Both(Both(q, 0x20, 0x28), 0x04, 0x02), 0x01, 0x01), 0xFB, 0xFF)
        == Pair(Chip(0xFB, p.master.isr, 0, 0x20, 0x04, 0x01), Chip(0xFF, p.slave.isr, 0, 0x28, 0x02, 0x01))
  {
  }

  // ------------------------------------------------------------ the mask

  predicate Masked(mask: bv16, irq: Irq) { mask & ((1 as bv16) << irq) != 0 }

  function Raise(mask: bv16, irq: Irq): bv16 { mask | ((1 as bv16) << irq) }

  function Lower(mask: bv16, irq: Irq): bv16 { mask & !((1 as bv16) << irq) }

  function WithIrq(mask: bv16, irq: Irq, masked: bool): bv16 {
    if masked then Raise(mask, irq) else Lower(mask, irq)
  }

  function Low(mask: bv16): bv8 { (mask & 0xFF) as bv8 }

  function High(mask: bv16): bv8 { ((mask >> 8) & 0xFF) as bv8 }

  /** Masking and unmasking an IRQ are about that IRQ only. */
  lemma OneIrq(mask: bv16, irq: Irq, masked: bool, other: Irq)
    ensures Masked(WithIrq(mask, irq, masked), other) == if other == irq then masked else Masked(mask, other)
  {
  }

  lemma SixteenBits(a: bv16, b: bv16)
    requires Masked(a, 0) == Masked(b, 0) && Masked(a, 1) == Masked(b, 1)
    requires Masked(a, 2) == Masked(b, 2) && Masked(a, 3) == Masked(b, 3)
    requires Masked(a, 4) == Masked(b, 4) && Masked(a, 5) == Masked(b, 5)
    requires Masked(a, 6) == Masked(b, 6) && Masked(a, 7) == Masked(b, 7)
    requires Masked(a, 8) == Masked(b, 8) && Masked(a, 9) == Masked(b, 9)
    requires Masked(a, 10) == Masked(b, 10) && Masked(a, 11) == Masked(b, 11)
    requires Masked(a, 12) == Masked(b, 12) && Masked(a, 13) == Masked(b, 13)
    requires Masked(a, 14) == Masked(b, 14) && Masked(a, 15) == Masked(b, 15)
    ensures a == b
  {
  }

  // A mask is what it says of the sixteen IRQs.
  lemma SameMask(a: bv16, b: bv16)
    requires forall i: Irq :: Masked(a, i) == Masked(b, i)
    ensures a == b
  {
    hide Masked;
    SixteenBits(a, b);
  }

  lemma NothingToDo(mask: bv16, irq: Irq, masked: bool)
    requires Masked(mask, irq) == masked
    ensures WithIrq(mask, irq, masked) == mask
  {
    hide WithIrq, Masked;
    forall i: Irq ensures Masked(WithIrq(mask, irq, masked), i) == Masked(mask, i) { OneIrq(mask, irq, masked, i); }
    SameMask(WithIrq(mask, irq, masked), mask);
  }

  lemma LastWins(mask: bv16, irq: Irq, first: bool, second: bool)
    ensures WithIrq(WithIrq(mask, irq, first), irq, second) == WithIrq(mask, irq, second)
  {
    hide WithIrq, Masked;
    var m := WithIrq(mask, irq, first);
    forall i: Irq ensures Masked(WithIrq(m, irq, second), i) == Masked(WithIrq(mask, irq, second), i) {
      OneIrq(mask, irq, first, i);
      OneIrq(m, irq, second, i);
      OneIrq(mask, irq, second, i);
    }
    SameMask(WithIrq(m, irq, second), WithIrq(mask, irq, second));
  }

  lemma IrqsCommute(mask: bv16, irq: Irq, masked: bool, other: Irq, m: bool)
    requires irq != other
    ensures WithIrq(WithIrq(mask, irq, masked), other, m) == WithIrq(WithIrq(mask, other, m), irq, masked)
  {
    hide WithIrq, Masked;
    var a, b := WithIrq(mask, irq, masked), WithIrq(mask, other, m);
    forall i: Irq ensures Masked(WithIrq(a, other, m), i) == Masked(WithIrq(b, irq, masked), i) {
      OneIrq(mask, irq, masked, i);
      OneIrq(mask, other, m, i);
      OneIrq(a, other, m, i);
      OneIrq(b, irq, masked, i);
    }
    SameMask(WithIrq(a, other, m), WithIrq(b, irq, masked));
  }

  // The halves hold the mask of IRQ 0 to 7 and of 8 to 15.
  lemma HalvesAreMask(mask: bv16, irq: Irq)
    ensures Masked(mask, irq) ==
      if irq < 8 then Low(mask) & ((1 as bv8) << irq) != 0 else High(mask) & ((1 as bv8) << (irq - 8)) != 0
  {
  }

  lemma FirstMask()
    ensures Low(0xFFFB) == 0xFB && High(0xFFFB) == 0xFF
  {
  }

  // The two halves make up the mask.
  lemma HalvesAre(mask: bv16)
    ensures ((High(mask) as bv16) << 8) | (Low(mask) as bv16) == mask
  {
  }

  // ---------------------------------------------------- critical regions

  // What kernel code does to the mask, with its regions properly nested.
  datatype Code =
    | Done
    | Region(body: Code, rest: Code)
    | Change(irq: Irq, masked: bool, rest: Code)

  // The timer is left to the regions, and the cascade is not touched.
  predicate Polite(c: Code) {
    match c
    case Done => true
    case Region(body, rest) => Polite(body) && Polite(rest)
    case Change(irq, _, rest) => irq != IRQ_PIT && irq != CASCADE && Polite(rest)
  }

  // The same code without its regions.
  function Erased(c: Code): Code {
    match c
    case Done => Done
    case Region(body, rest) => Then(Erased(body), Erased(rest))
    case Change(irq, masked, rest) => Change(irq, masked, Erased(rest))
  }

  function Then(c: Code, d: Code): Code {
    match c
    case Done => d
    case Region(body, rest) => Region(body, Then(rest, d))
    case Change(irq, masked, rest) => Change(irq, masked, Then(rest, d))
  }

  predicate ChangesNothing(c: Code) {
    match c
    case Done => true
    case Region(body, rest) => ChangesNothing(body) && ChangesNothing(rest)
    case Change(_, _, _) => false
  }

  // Leaving a region that was entered with the timer masked or not.
  function Left(mask: bv16, wasMasked: bool): bv16 {
    if wasMasked then mask else WithIrq(mask, IRQ_PIT, false)
  }

  // The mask after c.
  function Final(c: Code, mask: bv16): bv16 {
    match c
    case Done => mask
    case Region(body, rest) =>
      Final(rest, Left(Final(body, WithIrq(mask, IRQ_PIT, true)), Masked(mask, IRQ_PIT)))
    case Change(irq, masked, rest) => Final(rest, WithIrq(mask, irq, masked))
  }

  // The masks in force during c, one after each step.
  function Seen(c: Code, mask: bv16): seq<bv16> {
    match c
    case Done => []
    case Region(body, rest) =>
      var locked := WithIrq(mask, IRQ_PIT, true);
      var left := Left(Final(body, locked), Masked(mask, IRQ_PIT));
      [locked] + Seen(body, locked) + [left] + Seen(rest, left)
    case Change(irq, masked, rest) =>
      var now := WithIrq(mask, irq, masked);
      [now] + Seen(rest, now)
  }

  // How c begins, for t the masks seen so far.
  lemma OneStep(c: Code, mask: bv16, t: seq<bv16>)
    ensures match c
      case Done => Final(c, mask) == mask && t + Seen(c, mask) == t
      case Region(body, rest) =>
        var locked := WithIrq(mask, IRQ_PIT, true);
        var left := Left(Final(body, locked), Masked(mask, IRQ_PIT));
        && Final(c, mask) == Final(rest, left)
        && t + Seen(c, mask) == t + [locked] + Seen(body, locked) + [left] + Seen(rest, left)
      case Change(irq, masked, rest) =>
        var now := WithIrq(mask, irq, masked);
        Final(c, mask) == Final(rest, now) && t + Seen(c, mask) == t + [now] + Seen(rest, now)
  {
  }

  // Everything that happens to the timer is undone in the end, and while it is masked
  // nothing inside unmasks it.
  lemma {:induction false} TimerKept(c: Code, mask: bv16)
    requires Polite(c)
    ensures Masked(Final(c, mask), IRQ_PIT) == Masked(mask, IRQ_PIT)
    ensures Masked(mask, IRQ_PIT) ==> forall m :: m in Seen(c, mask) ==> Masked(m, IRQ_PIT)
  {
    hide WithIrq, Masked;
    match c
    case Done =>
    case Region(body, rest) =>
      var locked := WithIrq(mask, IRQ_PIT, true);
      var inside := Final(body, locked);
      OneIrq(mask, IRQ_PIT, true, IRQ_PIT);
      OneIrq(inside, IRQ_PIT, false, IRQ_PIT);
      TimerKept(body, locked);
      TimerKept(rest, Left(inside, Masked(mask, IRQ_PIT)));
    case Change(irq, masked, rest) =>
      OneIrq(mask, irq, masked, IRQ_PIT);
      TimerKept(rest, WithIrq(mask, irq, masked));
  }

  /** From its lock to its unlock, whatever regions are nested in it, a region runs with
      the timer masked. */
  lemma RegionGuards(body: Code, mask: bv16)
    requires Polite(body)
    ensures var locked := WithIrq(mask, IRQ_PIT, true);
      forall m :: m in [locked] + Seen(body, locked) ==> Masked(m, IRQ_PIT) && Low(m) & 1 != 0
  {
    hide WithIrq, Masked, Low;
    OneIrq(mask, IRQ_PIT, true, IRQ_PIT);
    TimerKept(body, WithIrq(mask, IRQ_PIT, true));
    forall m | Masked(m, IRQ_PIT) ensures Low(m) & 1 != 0 { TimerIsFirst(m); }
  }

  // The timer has the lowest bit of the master.
  lemma TimerIsFirst(mask: bv16)
    ensures Masked(mask, IRQ_PIT) <==> Low(mask) & 1 != 0
  {
  }

  /** Polite code leaves the cascade open, through which the slave's interrupts come. */
  lemma {:induction false} CascadeStaysOpen(c: Code, mask: bv16)
    requires Polite(c) && Low(mask) & 4 == 0
    ensures Low(Final(c, mask)) & 4 == 0 && forall m :: m in Seen(c, mask) ==> Low(m) & 4 == 0
  {
    hide WithIrq, Masked, Low;
    match c
    case Done =>
    case Region(body, rest) =>
      var locked := WithIrq(mask, IRQ_PIT, true);
      var inside := Final(body, locked);
      OtherThanCascade(mask, IRQ_PIT, true);
      CascadeStaysOpen(body, locked);
      OtherThanCascade(inside, IRQ_PIT, false);
      CascadeStaysOpen(rest, Left(inside, Masked(mask, IRQ_PIT)));
    case Change(irq, masked, rest) =>
      OtherThanCascade(mask, irq, masked);
      CascadeStaysOpen(rest, WithIrq(mask, irq, masked));
  }

  lemma OtherThanCascade(mask: bv16, irq: Irq, masked: bool)
    requires irq != CASCADE && Low(mask) & 4 == 0
    ensures Low(WithIrq(mask, irq, masked)) & 4 == 0
  {
  }

  // No regions.
  predicate Flat(c: Code) {
    match c
    case Done => true
    case Region(_, _) => false
    case Change(_, _, rest) => Flat(rest)
  }

  // Code that leaves the timer alone does the same whether it is masked or not.
  lemma {:induction false} BesideTimer(c: Code, mask: bv16, masked: bool)
    requires Polite(c) && Flat(c)
    ensures Final(c, WithIrq(mask, IRQ_PIT, masked)) == WithIrq(Final(c, mask), IRQ_PIT, masked)
  {
    hide WithIrq, Masked;
    match c
    case Done =>
    case Change(irq, m, rest) =>
      IrqsCommute(mask, IRQ_PIT, masked, irq, m);
      BesideTimer(rest, WithIrq(mask, irq, m), masked);
  }

  lemma {:induction false} ErasedIsFlat(c: Code)
    ensures Flat(Erased(c))
    ensures Polite(c) ==> Polite(Erased(c))
  {
    match c
    case Done =>
    case Region(body, rest) =>
      ErasedIsFlat(body);
      ErasedIsFlat(rest);
      FlatThen(Erased(body), Erased(rest));
    case Change(_, _, rest) =>
      ErasedIsFlat(rest);
  }

  lemma {:induction false} FlatThen(c: Code, d: Code)
    requires Flat(c) && Flat(d)
    ensures Flat(Then(c, d)) && (Polite(c) && Polite(d) ==> Polite(Then(c, d)))
  {
    if c.Change? { FlatThen(c.rest, d); }
  }

  lemma {:induction false} FinalThen(c: Code, d: Code, mask: bv16)
    requires Flat(c)
    ensures Final(Then(c, d), mask) == Final(d, Final(c, mask))
  {
    if c.Change? { FinalThen(c.rest, d, WithIrq(mask, c.irq, c.masked)); }
  }

  /** Regions leave no trace: code with them ends with the very mask it would end with
      without them. */
  lemma {:induction false} RegionsLeaveNoTrace(c: Code, mask: bv16)
    requires Polite(c)
    ensures Final(c, mask) == Final(Erased(c), mask)
  {
    hide WithIrq, Masked;
    match c
    case Done =>
    case Region(body, rest) =>
      var was, locked := Masked(mask, IRQ_PIT), WithIrq(mask, IRQ_PIT, true);
      var plain := Final(Erased(body), mask);
      RegionsLeaveNoTrace(body, locked);
      ErasedIsFlat(body);
      BesideTimer(Erased(body), mask, true);
      TimerKept(Erased(body), mask);
      if was {
        NothingToDo(mask, IRQ_PIT, true);
      } else {
        LastWins(plain, IRQ_PIT, true, false);
        NothingToDo(plain, IRQ_PIT, false);
      }
      assert Left(Final(body, locked), was) == plain;
      RegionsLeaveNoTrace(rest, plain);
      FinalThen(Erased(body), Erased(rest), mask);
    case Change(irq, masked, rest) =>
      RegionsLeaveNoTrace(rest, WithIrq(mask, irq, masked));
  }

  lemma {:induction false} RegionsAlone(c: Code, mask: bv16)
    requires ChangesNothing(c)
    ensures Polite(c) && Final(c, mask) == mask
  {
    hide WithIrq, Masked;
    if c.Region? {
      RegionsAlone(c.body, WithIrq(mask, IRQ_PIT, true));
      RegionsAlone(c.rest, mask);
      if Masked(mask, IRQ_PIT) {
        NothingToDo(mask, IRQ_PIT, true);
      } else {
        LastWins(mask, IRQ_PIT, true, false);
        NothingToDo(mask, IRQ_PIT, false);
      }
    }
  }

  /** An end of interrupt takes the most urgent interrupt out of service, and no other. */
  lemma EndsMostUrgent(isr: bv8, irq: bv3)
    requires isr & ((1 as bv8) << irq) != 0 && isr & (((1 as bv8) << irq) - 1) == 0
    ensures WithoutLowest(isr) == isr & !((1 as bv8) << irq)
  {
  }

  // ------------------------------------------------------- the controllers

  // The halves of a mask that differ, as writes to the data ports.
  function Writes(before: bv16, after: bv16): seq<(int, bv8)> {
    (if Low(after) != Low(before) then [(PIC_MASTER_DATA, Low(after))] else [])
      + (if High(after) != High(before) then [(PIC_SLAVE_DATA, High(after))] else [])
  }

  class Controller {
    var irqMask: bv16      // irq_mask
    var master: Chip
    var slave: Chip
    ghost var written: seq<(int, bv8)>
    ghost var trace: seq<bv16>       // the masks in the chips, one after each step of Execute

    // The mask the chips themselves hold.
    function InForce(): (mask: bv16)
      requires Valid()
      reads this
      ensures mask == irqMask
    {
      HalvesAre(irqMask);
      ((slave.imr as bv16) << 8) | (master.imr as bv16)
    }

    function Chips(): Pair
      reads `master, `slave
    {
      Pair(master, slave)
    }

    // irq_mask is what the two mask registers hold.
    ghost predicate Valid()
      reads this
    {
      && master.expected == 0 && slave.expected == 0
      && master.imr == Low(irqMask) && slave.imr == High(irqMask)
    }

    // ioport_outb, for the ports used here.
    method Out(port: int, v: bv8)
      requires port in {PIC_MASTER_CMD, PIC_MASTER_DATA, PIC_SLAVE_CMD, PIC_SLAVE_DATA}
      modifies `master, `slave, `written
      ensures written == old(written) + [(port, v)]
      ensures Chips() == Written(old(Chips()), port, v)
    {
      written := written + [(port, v)];
      if port == PIC_MASTER_CMD {
        master := Commanded(master, v);
      } else if port == PIC_MASTER_DATA {
        master := Supplied(master, v);
      } else if port == PIC_SLAVE_CMD {
        slave := Commanded(slave, v);
      } else {
        slave := Supplied(slave, v);
      }
    }

    /** remap_pic, whatever state the chips were in. */
    method RemapPic()
      modifies this
      ensures Valid() && irqMask == 0xFFFB
      ensures master.vector == 0x20 && slave.vector == 0x28
      ensures master.cascade == 0x04 && slave.cascade == 0x02 && master.mode == slave.mode == 0x01
    {
      hide Written, Low, High;
      Initialised(Chips());
      FirstMask();
      Out(PIC_MASTER_CMD, 0x11);
      Out(PIC_SLAVE_CMD, 0x11);
      Out(PIC_MASTER_DATA, 0x20);
      Out(PIC_SLAVE_DATA, 0x28);
      Out(PIC_MASTER_DATA, 0x04);
      Out(PIC_SLAVE_DATA, 0x02);
      Out(PIC_MASTER_DATA, 0x01);
      Out(PIC_SLAVE_DATA, 0x01);
      Out(PIC_MASTER_DATA, 0xFB);
      Out(PIC_SLAVE_DATA, 0xFF);
      irqMask := 0xFFFB;
    }

    /** set_raw_mask: no more than the halves that change is written. */
    method SetRawMask(mask: bv16)
      requires Valid()
      modifies `irqMask, `master, `slave, `written
      ensures Valid() && irqMask == mask && written == old(written) + Writes(old(irqMask), mask)
    {
      if irqMask == mask { return; }
      if Low(mask) != Low(irqMask) {
        Out(PIC_MASTER_DATA, Low(mask));
      }
      if High(mask) != High(irqMask) {
        Out(PIC_SLAVE_DATA, High(mask));
      }
      irqMask := mask;
    }

    // int_mask_irq
    method MaskIrq(irq: Irq) returns (changed: bool)
      requires Valid() && irq != CASCADE
      modifies `irqMask, `master, `slave, `written
      ensures Valid() && irqMask == WithIrq(old(irqMask), irq, true)
      ensures changed == !Masked(old(irqMask), irq)
    {
      hide Low, High, Masked, Raise;
      if Masked(irqMask, irq) {
        NothingToDo(irqMask, irq, true);
        return false;
      }
      SetRawMask(Raise(irqMask, irq));
      return true;
    }

    // int_unmask_irq
    method UnmaskIrq(irq: Irq) returns (changed: bool)
      requires Valid() && irq != CASCADE
      modifies `irqMask, `master, `slave, `written
      ensures Valid() && irqMask == WithIrq(old(irqMask), irq, false)
      ensures changed == Masked(old(irqMask), irq)
    {
      hide Low, High, Masked, Lower;
      if !Masked(irqMask, irq) {
        NothingToDo(irqMask, irq, false);
        return false;
      }
      SetRawMask(Lower(irqMask, irq));
      return true;
    }

    /** int_irq_enabled: what the chip itself would say. */
    function IrqEnabled(irq: Irq): (enabled: bool)
      requires Valid()
      reads this
      ensures enabled ==
        if irq < 8 then master.imr & ((1 as bv8) << irq) == 0 else slave.imr & ((1 as bv8) << (irq - 8)) == 0
    {
      HalvesAreMask(irqMask, irq);
      !Masked(irqMask, irq)
    }

    // int_lock_region
    method LockRegion() returns (lock: bool)
      requires Valid()
      modifies `irqMask, `master, `slave, `written
      ensures Valid() && irqMask == WithIrq(old(irqMask), IRQ_PIT, true) && lock == !Masked(old(irqMask), IRQ_PIT)
      ensures master.imr & 1 != 0 && (lock <==> old(master.imr) & 1 == 0)
    {
      hide Masked, WithIrq, Low;
      TimerIsFirst(irqMask);
      OneIrq(irqMask, IRQ_PIT, true, IRQ_PIT);
      TimerIsFirst(WithIrq(irqMask, IRQ_PIT, true));
      lock := IrqEnabled(IRQ_PIT);
      if lock {
        var _ := MaskIrq(IRQ_PIT);
      } else {
        NothingToDo(irqMask, IRQ_PIT, true);
      }
    }

    // int_unlock_region
    method UnlockRegion(lock: bool)
      requires Valid()
      modifies `irqMask, `master, `slave, `written
      ensures Valid() && irqMask == Left(old(irqMask), !lock)
      ensures if lock then master.imr & 1 == 0 else master == old(master)
    {
      hide Masked, WithIrq, Low;
      OneIrq(irqMask, IRQ_PIT, false, IRQ_PIT);
      TimerIsFirst(WithIrq(irqMask, IRQ_PIT, false));
      if lock {
        var _ := UnmaskIrq(IRQ_PIT);
      }
    }

    // The end of irq_int_handler.
    method Acknowledge(irq: Irq)
      requires Valid()
      modifies `irqMask, `master, `slave, `written
      ensures Valid() && irqMask == old(irqMask)
      ensures master.isr == WithoutLowest(old(master.isr))
      ensures slave.isr == if irq >= 8 then WithoutLowest(old(slave.isr)) else old(slave.isr)
      ensures written == old(written) + (if irq >= 8 then [(PIC_SLAVE_CMD, EOI)] else []) + [(PIC_MASTER_CMD, EOI)]
    {
      if irq >= 8 {
        Out(PIC_SLAVE_CMD, EOI);
      }
      Out(PIC_MASTER_CMD, EOI);
    }

    /** Kernel code at work: the controllers follow. */
    method Execute(c: Code)
      requires Valid() && Polite(c)
      modifies this
      ensures Valid() && irqMask == Final(c, old(irqMask)) == Final(Erased(c), old(irqMask))
      ensures trace == old(trace) + Seen(c, old(irqMask))
      decreases c
    {
      hide Low, High, Masked, WithIrq, Left, InForce, Erased, Seen, Final;
      RegionsLeaveNoTrace(c, irqMask);
      OneStep(c, irqMask, trace);
      match c
      case Done =>
      case Region(body, rest) =>
        var lock := LockRegion();
        trace := trace + [InForce()];
        Execute(body);
        UnlockRegion(lock);
        trace := trace + [InForce()];
        Execute(rest);
      case Change(irq, masked, rest) =>
        if masked {
          var _ := MaskIrq(irq);
        } else {
          var _ := UnmaskIrq(irq);
        }
        trace := trace + [InForce()];
        Execute(rest);
    }
  }
}
