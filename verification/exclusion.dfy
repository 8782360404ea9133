/** Critical regions among several processes, one store at a time (kernel/include/kernel/interrupt.h,
    kernel/arch/i386/interrupt.c).  The timer's mask is in two places, in the chip and in irq_mask, and
    a tick may come between the stores to them. */
module Exclusion {

  // Where a process is: anywhere; between the test and the masking in int_lock_region; or
  // between the store to the chip and that to irq_mask, on the way into a region or out of it.
  datatype Phase = Anywhere | Tested | Locking | Unlocking

  // A process with what int_lock_region returned for each region it is in, outermost first.
  datatype Process = Process(locks: seq<bool>, phase: Phase)

  // chip and shadow: whether the chip masks the timer, and whether irq_mask says so.
  datatype System = System(chip: bool, shadow: bool, running: int, procs: seq<Process>)

  // What the running process does next, or a tick after which process next goes on.
  datatype Event = Test | Mask | Note | Unmask | Tick(next: int)

  ghost predicate WellFormed(s: System) { 0 <= s.running < |s.procs| }

  function Now(s: System): Process
    requires WellFormed(s)
  {
    s.procs[s.running]
  }

  ghost predicate Possible(s: System, e: Event)
    requires WellFormed(s)
  {
    match e
    case Test => Now(s).phase == Anywhere
    case Mask => Now(s).phase == Tested
    case Note => Now(s).phase == Locking || Now(s).phase == Unlocking
    case Unmask => Now(s).phase == Anywhere && Now(s).locks != []
    case Tick(next) => !s.chip && 0 <= next < |s.procs|
  }

  function With(s: System, p: Process): System
    requires WellFormed(s)
  {
    s.(procs := s.procs[s.running := p])
  }

  function Entered(p: Process, lock: bool): Process { Process(p.locks + [lock], Anywhere) }

  function Left(p: Process): Process
    requires p.locks != []
  {
    Process(p.locks[..|p.locks| - 1], Anywhere)
  }

  function After(s: System, e: Event): System
    requires WellFormed(s)
  {
    var p := Now(s);
    match e
    case Test =>                              // lock = int_irq_enabled(IRQ_PIT)
      With(s, if s.shadow then Entered(p, false) else p.(phase := Tested))
    case Mask =>                              // int_mask_irq, as far as the store to the chip
      if s.shadow then With(s, Entered(p, true)) else With(s, p.(phase := Locking)).(chip := true)
    case Note =>                              // irq_mask = mask
      if p.phase == Locking then With(s, Entered(p, true)).(shadow := true)
      else if p.locks != [] then With(s, Left(p)).(shadow := false) else s
    case Unmask =>                            // int_unlock_region, as far as the store to the chip
      if p.locks == [] then s
      else if !p.locks[|p.locks| - 1] || !s.shadow then With(s, Left(p))
      else With(s, p.(phase := Unlocking)).(chip := false)
    case Tick(next) => if 0 <= next < |s.procs| then s.(running := next) else s
  }

  lemma AfterIsWellFormed(s: System, e: Event)
    requires WellFormed(s)
    ensures WellFormed(After(s, e)) && |After(s, e).procs| == |s.procs|
  {
  }

  predicate Inside(p: Process) { p.locks != [] && p.phase != Unlocking }

  /** Only the running process is inside a region, and it cannot be interrupted there. */
  ghost predicate Exclusive(s: System) {
    forall q :: 0 <= q < |s.procs| && Inside(s.procs[q]) ==> q == s.running && s.chip
  }

  /** A tick that takes the processor from a process that has just unmasked the timer in the
      chip, but not yet in irq_mask. */
  predicate Dangerous(s: System, e: Event)
    requires 0 <= s.running < |s.procs|
  {
    e.Tick? && e.next != s.running && Now(s).phase == Unlocking
  }

  ghost predicate Runs(s: System, es: seq<Event>)
    decreases |es|
  {
    WellFormed(s) && (es != [] ==> Possible(s, es[0]) && Runs(After(s, es[0]), es[1..]))
  }

  ghost predicate Harmless(s: System, es: seq<Event>)
    requires Runs(s, es)
    decreases |es|
  {
    es != [] ==> !Dangerous(s, es[0]) && Harmless(After(s, es[0]), es[1..])
  }

  function Final(s: System, es: seq<Event>): System
    requires WellFormed(s)
    decreases |es|
  {
    if es == [] then s else
    AfterIsWellFormed(s, es[0]);
    Final(After(s, es[0]), es[1..])
  }

  // --------------------------------------------------------------- invariant

  // What interrupted processes are like, and the running one.
  ghost predicate Waiting(p: Process) { p.locks == [] && (p.phase == Anywhere || p.phase == Tested) }

  // The outermost region has locked the timer, and none inside it has.
  ghost predicate Nested(locks: seq<bool>) {
    locks != [] ==> locks[0] && forall i :: 1 <= i < |locks| ==> !locks[i]
  }

  ghost predicate Consistent(s: System, p: Process) {
    match p.phase
    case Anywhere => Nested(p.locks) && s.chip == s.shadow == (p.locks != [])
    case Tested => p.locks == [] && !s.chip && !s.shadow
    case Locking => p.locks == [] && s.chip && !s.shadow
    case Unlocking => p.locks == [true] && !s.chip && s.shadow
  }

  ghost predicate Good(s: System) {
    && WellFormed(s) && Consistent(s, Now(s))
    && forall q :: 0 <= q < |s.procs| && q != s.running ==> Waiting(s.procs[q])
  }

  // All processes run, none in a region.
  function Start(n: nat): (s: System)
    requires n > 0
    ensures Good(s)
  {
    System(false, false, 0, seq(n, _ => Process([], Anywhere)))
  }

  lemma StepKeepsGood(s: System, e: Event)
    requires Good(s) && Possible(s, e) && !Dangerous(s, e)
    ensures Good(After(s, e))
  {
  }

  /** As long as no dangerous tick comes, at most one process is inside a region, and no tick
      comes there. */
  lemma {:induction false} RegionsExclude(s: System, es: seq<Event>)
    requires Good(s) && Runs(s, es) && Harmless(s, es)
    ensures Good(Final(s, es)) && Exclusive(Final(s, es))
    decreases |es|
  {
    if es != [] {
      StepKeepsGood(s, es[0]);
      RegionsExclude(After(s, es[0]), es[1..]);
    }
  }

  // ------------------------------------------------------------ how it fails

  // However the run goes on without dangerous ticks, regions exclude one another.
  ghost predicate StaysExclusive(s: System)
    requires WellFormed(s)
  {
    forall es :: Runs(s, es) && Harmless(s, es) ==> Exclusive(Final(s, es))
  }

  lemma Before(s: System, e: Event, es: seq<Event>)
    requires WellFormed(s) && Possible(s, e) && !Dangerous(s, e)
    requires Runs(After(s, e), es) && Harmless(After(s, e), es)
    ensures Runs(s, [e] + es) && Harmless(s, [e] + es) && Final(s, [e] + es) == Final(After(s, e), es)
  {
    assert ([e] + es)[1..] == es;
  }

  // The running process gets to irq_mask at last, and on into its next region.
  lemma NextRegion(s: System) returns (es: seq<Event>)
    requires WellFormed(s) && Now(s) == Process([true], Unlocking) && !s.chip && s.shadow
    ensures Runs(s, es) && Harmless(s, es) && Final(s, es).running == s.running
    ensures |Final(s, es).procs| == |s.procs|
    ensures forall q :: 0 <= q < |s.procs| && q != s.running ==> Final(s, es).procs[q] == s.procs[q]
  {
    es := [];
    var t1 := After(s, Note);
    var t2 := After(t1, Test);
    var t3 := After(t2, Mask);
    Before(t3, Note, []);
    Before(t2, Mask, [Note] + []);
    Before(t1, Test, [Mask] + ([Note] + []));
    Before(s, Note, [Test] + ([Mask] + ([Note] + [])));
    es := [Note] + ([Test] + ([Mask] + ([Note] + [])));
  }

  // After a dangerous tick the other process enters a region, which irq_mask makes it take
  // for locked already; the first one goes on, and enters its next one.
  lemma DangerBreaks(s: System, next: int) returns (es: seq<Event>)
    requires Good(s) && Possible(s, Tick(next)) && Dangerous(s, Tick(next))
    ensures var t := After(s, Tick(next));
      WellFormed(t) && Runs(t, es) && Harmless(t, es) && !Exclusive(Final(t, es))
  {
    var first := if s.procs[next].phase == Tested then Mask else Test;
    var t := After(s, Tick(next));
    var t1 := After(t, first);
    var t2 := After(t1, Tick(s.running));
    assert Inside(t2.procs[next]);
    es := NextRegion(t2);
    assert Inside(Final(t2, es).procs[next]);
    Before(t1, Tick(s.running), es);
    Before(t, first, [Tick(s.running)] + es);
    es := [first] + ([Tick(s.running)] + es);
  }

  /** Exactly when: a step after which regions go on excluding one another is one that is
      not a dangerous tick. */
  lemma ExclusionIff(s: System, e: Event)
    requires Good(s) && Possible(s, e)
    ensures WellFormed(After(s, e)) && (StaysExclusive(After(s, e)) <==> !Dangerous(s, e))
  {
    AfterIsWellFormed(s, e);
    var t := After(s, e);
    if Dangerous(s, e) {
      var es := DangerBreaks(s, e.next);
    } else {
      StepKeepsGood(s, e);
      forall es | Runs(t, es) && Harmless(t, es) ensures Exclusive(Final(t, es)) {
        RegionsExclude(t, es);
      }
    }
  }
}
