// The round-robin scheduler: the queue, the switch request a clock tick leaves, and the
// two stages of a context switch (kernel/kernel/proc/scheduler.c, scheduler_asm.S).
module Scheduling {
  import opened Machine

  // Process flags, kept in one byte.  The scheduler itself does not look at PROC_FREE.
  const PROC_FREE: bv8 := 1
  const PROC_DEBUG_YIELD: bv8 := 2
  const PROC_FREE_THREAD_CONTEXT: bv8 := 4

  // A process with its one thread.
  class Process {
    var context: int     // thread->context: the address of the saved registers
    var flags: bv8
    var quantum: int
    var next: Process?

    constructor (context: int, flags: bv8, quantum: int)
      ensures this.context == context && this.flags == flags && this.quantum == quantum && next == null
    {
      this.context, this.flags, this.quantum, next := context, flags, quantum, null;
    }
  }

  // ----------------------------------------------------------- on values

  datatype Info = Info(context: int, flags: bv8, quantum: int)

  // freed: the addresses given to kfree, in order; sp: the stack pointer last loaded.
  datatype Snapshot = Snapshot(queue: seq<Process>, current: Process, info: map<Process, Info>,
                         switching: bool, preemption: bool, sp: int, freed: seq<int>)

  // What happens to the scheduler.  esp is the stack pointer after the interrupt stub
  // has pushed the registers of the interrupted process.
  datatype Step = Add(p: Process) | Yield | Interrupt(timer: bool, esp: int)

  // One context switch: out was interrupted, with its registers saved at esp; next goes
  // on with the stack pointer sp.  The queue had length processes.
  datatype Switch = Switch(out: Process, esp: int, next: Process, sp: int, length: nat)

  predicate Has(flags: bv8, f: bv8) { flags & f != 0 }

  function With(flags: bv8, f: bv8): bv8 { flags | f }

  function Without(flags: bv8, f: bv8): bv8 { flags & !f }

  lemma FlagBits(f: bv8)
    ensures Has(With(f, PROC_DEBUG_YIELD), PROC_DEBUG_YIELD) && !Has(Without(f, PROC_DEBUG_YIELD), PROC_DEBUG_YIELD)
    ensures Has(With(f, PROC_DEBUG_YIELD), PROC_FREE_THREAD_CONTEXT) == Has(f, PROC_FREE_THREAD_CONTEXT)
    ensures Has(Without(f, PROC_DEBUG_YIELD), PROC_FREE_THREAD_CONTEXT) == Has(f, PROC_FREE_THREAD_CONTEXT)
    ensures !Has(Without(f, PROC_FREE_THREAD_CONTEXT), PROC_FREE_THREAD_CONTEXT)
    ensures Has(Without(f, PROC_FREE_THREAD_CONTEXT), PROC_DEBUG_YIELD) == Has(f, PROC_DEBUG_YIELD)
    ensures Without(With(f, PROC_DEBUG_YIELD), PROC_DEBUG_YIELD) == Without(f, PROC_DEBUG_YIELD)
    ensures Has(With(f, PROC_DEBUG_YIELD), PROC_FREE) == Has(Without(f, PROC_DEBUG_YIELD), PROC_FREE) == Has(f, PROC_FREE)
    ensures Has(Without(f, PROC_FREE_THREAD_CONTEXT), PROC_FREE) == Has(f, PROC_FREE)
    ensures !Has(f, PROC_FREE_THREAD_CONTEXT) ==> Without(f, PROC_FREE_THREAD_CONTEXT) == f
  {
  }

  predicate Yielding(i: Info) { Has(i.flags, PROC_DEBUG_YIELD) }

  predicate Owned(i: Info) { Has(i.flags, PROC_FREE_THREAD_CONTEXT) }

  ghost predicate Distinct(q: seq<Process>) {
    forall i, j :: 0 <= i < j < |q| ==> q[i] != q[j]
  }

  ghost predicate WellFormed(s: Snapshot) {
    && Distinct(s.queue) && s.current in s.queue
    && (forall p :: p in s.queue ==> p in s.info)
    && (forall p :: p in s.info ==> 0 <= s.info[p].quantum < WORD_RANGE)
    && (s.switching ==> |s.queue| > 1 && !s.preemption)
  }

  // Whoever waits for the processor is not asking to give it up.
  ghost predicate OnlyCurrentYields(s: Snapshot) {
    forall p :: p in s.info && p != s.current ==> !Yielding(s.info[p])
  }

  function Position(q: seq<Process>, p: Process): (i: nat)
    requires p in q
    ensures i < |q| && q[i] == p && p !in q[..i]
  {
    if q[0] == p then 0 else 1 + Position(q[1..], p)
  }

  function Behind(q: seq<Process>, i: nat): Process? {
    if i + 1 < |q| then q[i + 1] else null
  }

  // Who follows position i of a queue of n.
  function Follow(i: int, n: int): int { if i + 1 < n then i + 1 else 0 }

  // Who runs after p.
  ghost function Next(q: seq<Process>, p: Process): (r: Process)
    requires p in q
    ensures r in q
  {
    q[Follow(Position(q, p), |q|)]
  }

  ghost function AfterAdd(s: Snapshot, p: Process): Snapshot {
    if p in s.queue then s else s.(queue := s.queue + [p])
  }

  ghost function AfterYield(s: Snapshot): Snapshot
    requires s.current in s.info
  {
    var i := s.info[s.current];
    s.(info := s.info[s.current := Info(i.context, With(i.flags, PROC_DEBUG_YIELD), i.quantum)])
  }

  // The tick asks for a switch.
  ghost predicate Asks(s: Snapshot)
    requires s.current in s.info
  {
    var i := s.info[s.current];
    (Yielding(i) || (i.quantum - 1) % WORD_RANGE == 0) && |s.queue| > 1
  }

  ghost function AfterTick(s: Snapshot): Snapshot
    requires s.current in s.info
  {
    var i := s.info[s.current];
    s.(info := s.info[s.current := Info(i.context, i.flags, (i.quantum - 1) % WORD_RANGE)],
       switching := s.switching || Asks(s))
  }

  function Saving(flags: bv8): bv8 {
    Without(Without(flags, PROC_DEBUG_YIELD), PROC_FREE_THREAD_CONTEXT)
  }

  ghost function AfterStage1(s: Snapshot, esp: int): Snapshot
    requires s.current in s.queue && s.current in s.info
  {
    var i := s.info[s.current];
    s.(info := s.info[s.current := Info(esp, Saving(i.flags), i.quantum)],
       freed := if Owned(i) then s.freed + [i.context] else s.freed,
       current := Next(s.queue, s.current))
  }

  ghost function AfterStage2(s: Snapshot): Snapshot
    requires s.current in s.info
  {
    s.(sp := s.info[s.current].context, switching := false)
  }

  ghost function AfterSwitch(s: Snapshot, esp: int): Snapshot
    requires s.current in s.queue && forall p :: p in s.queue ==> p in s.info
  {
    AfterStage2(AfterStage1(s, esp))
  }

  ghost function Handled(s: Snapshot, timer: bool): Snapshot
    requires WellFormed(s)
  {
    if timer then AfterTick(s) else s
  }

  ghost function AfterInterrupt(s: Snapshot, timer: bool, esp: int): Snapshot
    requires WellFormed(s)
  {
    var h := Handled(s, timer);
    if h.preemption && h.switching then AfterSwitch(h, esp) else h
  }

  ghost function After(s: Snapshot, step: Step): Snapshot
    requires WellFormed(s)
  {
    match step
    case Add(p) => AfterAdd(s, p)
    case Yield => AfterYield(s)
    case Interrupt(timer, esp) => AfterInterrupt(s, timer, esp)
  }

  // The switch a step makes, if any.
  ghost function Made(s: Snapshot, step: Step): seq<Switch>
    requires WellFormed(s)
  {
    match step
    case Add(_) => []
    case Yield => []
    case Interrupt(timer, esp) =>
      var h := Handled(s, timer);
      if h.preemption && h.switching then
        [Switch(s.current, esp, Next(s.queue, s.current), AfterSwitch(h, esp).sp, |s.queue|)]
      else
        []
  }

  // A process is added only with its record known.
  ghost predicate Allowed(s: Snapshot, steps: seq<Step>) {
    forall k :: 0 <= k < |steps| && steps[k].Add? ==> steps[k].p in s.info
  }

  // From s to t, the invariants hold on.
  ghost predicate Keeps(s: Snapshot, t: Snapshot) {
    && WellFormed(t) && t.info.Keys == s.info.Keys && (OnlyCurrentYields(s) ==> OnlyCurrentYields(t))
    && s.queue <= t.queue && t.preemption == s.preemption
  }

  // All but that a tick has asked for a switch, which the interrupt stub then makes.
  ghost predicate BeforeSwitch(s: Snapshot) {
    && |s.queue| > 1 && WellFormed(s.(switching := false))
  }

  lemma TickKeeps(s: Snapshot)
    requires WellFormed(s)
    ensures var t := AfterTick(s);
      if t.preemption && t.switching then
        BeforeSwitch(t) && Keeps(s, t.(switching := false))
      else
        Keeps(s, t)
  {
  }

  lemma SwitchKeeps(s: Snapshot, esp: int)
    requires BeforeSwitch(s)
    ensures Keeps(s, AfterSwitch(s, esp))
  {
  }

  lemma StepKeeps(s: Snapshot, step: Step)
    requires WellFormed(s) && (step.Add? ==> step.p in s.info)
    ensures Keeps(s, After(s, step))
  {
    hide Has, With;
    match step
    case Add(_) =>
    case Yield =>
    case Interrupt(timer, esp) =>
      hide AfterSwitch, AfterTick;
      if timer { TickKeeps(s); }
      if Handled(s, timer).preemption && Handled(s, timer).switching {
        SwitchKeeps(Handled(s, timer), esp);
      }
  }

  ghost function Run(s: Snapshot, steps: seq<Step>): (t: Snapshot)
    requires WellFormed(s) && Allowed(s, steps)
    ensures WellFormed(t) && t.info.Keys == s.info.Keys && t.preemption == s.preemption
    ensures OnlyCurrentYields(s) ==> OnlyCurrentYields(t)
  {
    if steps == [] then s
    else
      var n := |steps| - 1;
      var t := Run(s, steps[..n]);
      StepKeeps(t, steps[n]);
      After(t, steps[n])
  }

  // All the switches of a run, in order.
  ghost function Trace(s: Snapshot, steps: seq<Step>): seq<Switch>
    requires WellFormed(s) && Allowed(s, steps)
  {
    if steps == [] then []
    else
      var n := |steps| - 1;
      Trace(s, steps[..n]) + Made(Run(s, steps[..n]), steps[n])
  }

  // ------------------------------------------------------- a single step

  // From s to t, with the switches made: who has the processor, where the contexts are,
  // which of them came from the heap, and which were freed.
  ghost predicate Effect(s: Snapshot, t: Snapshot, made: seq<Switch>) {
    && s.current in s.queue && s.current in s.info && t.current in t.queue && t.current in t.info
    && t.info.Keys == s.info.Keys && s.queue <= t.queue && Distinct(t.queue)
    && if made == [] then
        && t.current == s.current && t.freed == s.freed
        && forall p :: p in s.info ==>
          t.info[p].context == s.info[p].context && Owned(t.info[p]) == Owned(s.info[p])
      else
        var q := s.queue;
        var next := q[Follow(Position(q, s.current), |q|)];
        && next != s.current && t.current == next && t.queue == q
        && made == [Switch(s.current, made[0].esp, next, t.info[next].context, |q|)]
        && t.freed == (if Owned(s.info[s.current]) then s.freed + [s.info[s.current].context] else s.freed)
        && t.info[s.current].context == made[0].esp && !Owned(t.info[s.current])
        && forall p :: p in s.info && p != s.current ==>
          t.info[p].context == s.info[p].context && Owned(t.info[p]) == Owned(s.info[p])
  }

  lemma StepEffect(s: Snapshot, step: Step)
    requires WellFormed(s) && (step.Add? ==> step.p in s.info)
    ensures Effect(s, After(s, step), Made(s, step))
  {
    hide Position, Has, With, Without;
    match step
    case Add(_) =>
    case Yield => FlagBits(s.info[s.current].flags);
    case Interrupt(timer, esp) =>
      if Made(s, step) != [] { SwitchEffect(Handled(s, timer), esp); }
  }

  lemma SwitchEffect(s: Snapshot, esp: int)
    requires BeforeSwitch(s)
    ensures var t := AfterSwitch(s, esp);
      Effect(s, t, [Switch(s.current, esp, Next(s.queue, s.current), t.sp, |s.queue|)])
  {
    hide Has, With, Without;
    var flags := s.info[s.current].flags;
    FlagBits(flags);
    FlagBits(Without(flags, PROC_DEBUG_YIELD));
    assert Next(s.queue, s.current) != s.current;
  }

  lemma LastStep(s: Snapshot, steps: seq<Step>)
    requires WellFormed(s) && Allowed(s, steps) && steps != []
    ensures var n := |steps| - 1;
      && Allowed(s, steps[..n]) && (steps[n].Add? ==> steps[n].p in Run(s, steps[..n]).info)
      && Run(s, steps) == After(Run(s, steps[..n]), steps[n])
      && Trace(s, steps) == Trace(s, steps[..n]) + Made(Run(s, steps[..n]), steps[n])
      && Effect(Run(s, steps[..n]), Run(s, steps), Made(Run(s, steps[..n]), steps[n]))
  {
    hide Effect, After, Made, WellFormed;
    StepEffect(Run(s, steps[..|steps| - 1]), steps[|steps| - 1]);
  }

  // ------------------------------------------------------ over whole runs

  // Switch e follows the one that gave the processor to p; r is the queue in the end.
  ghost predicate GoesRound(e: Switch, p: Process, least: nat, r: seq<Process>) {
    && e.out == p && e.next != p && least <= e.length <= |r|
    && p in r && Position(r, p) < e.length && e.next == r[Follow(Position(r, p), e.length)]
  }

  // Who has the processor after k of the switches tr, if p had it before them.
  function Holder(tr: seq<Switch>, p: Process, k: nat): Process
    requires k <= |tr|
  {
    if k == 0 then p else tr[k - 1].next
  }

  ghost predicate AllGoRound(tr: seq<Switch>, p: Process, least: nat, r: seq<Process>) {
    forall k {:trigger Holder(tr, p, k)} :: 0 <= k < |tr| ==> GoesRound(tr[k], Holder(tr, p, k), least, r)
  }

  lemma SamePosition(q: seq<Process>, r: seq<Process>, p: Process)
    requires q <= r && p in q
    ensures Position(r, p) == Position(q, p)
  {
  }

  lemma LaterQueue(e: Switch, p: Process, least: nat, q: seq<Process>, r: seq<Process>)
    requires GoesRound(e, p, least, q) && q <= r
    ensures GoesRound(e, p, least, r)
  {
  }

  /** Every switch of a run changes the process, goes on with the next of the queue as
      it then was, and takes the processor from whoever got it at the switch before. */
  lemma {:induction false} SwitchesGoRound(s: Snapshot, steps: seq<Step>)
    requires WellFormed(s) && Allowed(s, steps)
    ensures var tr := Trace(s, steps); var t := Run(s, steps);
      && s.queue <= t.queue && Distinct(t.queue)
      && t.current == Holder(tr, s.current, |tr|)
      && AllGoRound(tr, s.current, |s.queue|, t.queue)
  {
    if steps != [] {
      var n := |steps| - 1;
      LastStep(s, steps);
      SwitchesGoRound(s, steps[..n]);
      hide Run, Trace, WellFormed, After, Made, AllGoRound;
      var u, t := Run(s, steps[..n]), Run(s, steps);
      OneMoreRound(u, t, Made(u, steps[n]), Trace(s, steps[..n]), s.current, |s.queue|);
    }
  }

  lemma OneMoreRound(u: Snapshot, t: Snapshot, made: seq<Switch>, tr: seq<Switch>, first: Process, least: nat)
    requires Effect(u, t, made) && AllGoRound(tr, first, least, u.queue)
    requires u.current == Holder(tr, first, |tr|) && least <= |u.queue|
    ensures t.current == Holder(tr + made, first, |tr + made|)
    ensures AllGoRound(tr + made, first, least, t.queue)
  {
    hide GoesRound, Position;
    var more := tr + made;
    forall k | 0 <= k < |more| ensures GoesRound(more[k], Holder(more, first, k), least, t.queue) {
      if k < |tr| {
        assert Holder(more, first, k) == Holder(tr, first, k);
        LaterQueue(tr[k], Holder(tr, first, k), least, u.queue, t.queue);
      } else {
        assert Holder(more, first, k) == u.current;
        MadeGoesRound(u, t, more[k], least);
      }
    }
  }

  lemma MadeGoesRound(u: Snapshot, t: Snapshot, e: Switch, least: nat)
    requires Effect(u, t, [e]) && least <= |u.queue|
    ensures GoesRound(e, u.current, least, t.queue)
  {
  }

  // The context a process has after the switches tr: where its registers went when it
  // last lost the processor.
  ghost function Saved(s: Snapshot, tr: seq<Switch>, p: Process): int
    requires p in s.info
  {
    if tr == [] then s.info[p].context
    else
      var n := |tr| - 1;
      if tr[n].out == p then tr[n].esp else Saved(s, tr[..n], p)
  }

  // The switches tr, from s on, each load what was saved for the process they go on with.
  ghost predicate LoadSaved(s: Snapshot, tr: seq<Switch>) {
    forall k :: 0 <= k < |tr| ==> tr[k].next in s.info && tr[k].sp == Saved(s, tr[..k], tr[k].next)
  }

  // In t, after the switches tr from s on, contexts are where the switches left them.
  ghost predicate AllSaved(s: Snapshot, tr: seq<Switch>, t: Snapshot) {
    t.info.Keys == s.info.Keys && forall p :: p in s.info ==> t.info[p].context == Saved(s, tr, p)
  }

  lemma {:induction false} ContextsSaved(s: Snapshot, steps: seq<Step>)
    requires WellFormed(s) && Allowed(s, steps)
    ensures AllSaved(s, Trace(s, steps), Run(s, steps)) && LoadSaved(s, Trace(s, steps))
  {
    if steps != [] {
      var n := |steps| - 1;
      LastStep(s, steps);
      ContextsSaved(s, steps[..n]);
      hide Run, Trace, WellFormed, After, Made, AllSaved, LoadSaved;
      var u, t := Run(s, steps[..n]), Run(s, steps);
      OneMoreSaved(s, u, t, Made(u, steps[n]), Trace(s, steps[..n]));
    }
  }

  lemma OneMoreSaved(s: Snapshot, u: Snapshot, t: Snapshot, made: seq<Switch>, tr: seq<Switch>)
    requires Effect(u, t, made) && AllSaved(s, tr, u) && LoadSaved(s, tr)
    ensures AllSaved(s, tr + made, t) && LoadSaved(s, tr + made)
  {
    hide Position, Owned;
    var more := tr + made;
    assert more[..|tr|] == tr;
    assert made == [] ==> more == tr;
    forall k | 0 <= k < |more| ensures more[k].next in s.info && more[k].sp == Saved(s, more[..k], more[k].next) {
      if k < |tr| {
        assert more[..k] == tr[..k];
      } else {
        assert more[k].next == t.current != u.current;
      }
    }
  }

  lemma {:induction false} SavedIsLast(s: Snapshot, tr: seq<Switch>, p: Process)
    requires p in s.info
    ensures StaysOut(tr, p, -1) ==> Saved(s, tr, p) == s.info[p].context
    ensures forall j :: 0 <= j < |tr| && tr[j].out == p && StaysOut(tr, p, j) ==> Saved(s, tr, p) == tr[j].esp
  {
    hide StaysOut;
    var n := |tr| - 1;
    if tr != [] {
      forall j | -1 <= j < n && StaysOut(tr, p, j) ensures tr[n].out != p && StaysOut(tr[..n], p, j) {
        StaysOutBefore(tr, p, j);
      }
      if tr[n].out != p { SavedIsLast(s, tr[..n], p); }
    }
  }

  lemma StaysOutBefore(tr: seq<Switch>, p: Process, j: int)
    requires StaysOut(tr, p, j) && j < |tr| - 1 && 0 < |tr|
    ensures tr[|tr| - 1].out != p && StaysOut(tr[..|tr| - 1], p, j)
  {
  }

  // p does not lose the processor in tr after switch j.
  ghost predicate StaysOut(tr: seq<Switch>, p: Process, j: int) {
    forall i :: 0 <= i < |tr| && j < i ==> tr[i].out != p
  }

  /** The stack pointer loaded when a process gets the processor is the one it was last
      interrupted with, or its first one if it never lost the processor. */
  lemma LoadsOwnContext(s: Snapshot, steps: seq<Step>, k: int)
    requires WellFormed(s) && Allowed(s, steps) && 0 <= k < |Trace(s, steps)|
    ensures var tr := Trace(s, steps); var p := tr[k].next;
      && p in s.info
      && (StaysOut(tr[..k], p, -1) ==> tr[k].sp == s.info[p].context)
      && forall j :: 0 <= j < k && tr[j].out == p && StaysOut(tr[..k], p, j) ==> tr[k].sp == tr[j].esp
  {
    hide Run, Trace, Saved, WellFormed, StaysOut;
    var tr := Trace(s, steps);
    ContextsSaved(s, steps);
    SavedIsLast(s, tr[..k], tr[k].next);
  }

  ghost predicate WasOut(tr: seq<Switch>, p: Process) {
    exists k :: 0 <= k < |tr| && tr[k].out == p
  }

  lemma WasOutMore(tr: seq<Switch>, e: Switch, p: Process)
    ensures WasOut(tr + [e], p) <==> WasOut(tr, p) || e.out == p
  {
    var more := tr + [e];
    if e.out == p {
      assert more[|tr|].out == p;
    } else if WasOut(tr, p) {
      var k :| 0 <= k < |tr| && tr[k].out == p;
      assert more[k].out == p;
    }
  }

  // What the switches tr have to free: a process's own context, if it came from the
  // heap, when the process first loses the processor.
  ghost function Due(s: Snapshot, tr: seq<Switch>): seq<int> {
    if tr == [] then []
    else
      var n := |tr| - 1;
      var p := tr[n].out;
      if p in s.info && Owned(s.info[p]) && !WasOut(tr[..n], p) then
        Due(s, tr[..n]) + [s.info[p].context]
      else
        Due(s, tr[..n])
  }

  /** A run frees the heap-owned contexts of the processes it takes the processor from,
      each when that first happens, and nothing else. */
  lemma {:induction false} FreesFirstContexts(s: Snapshot, steps: seq<Step>)
    requires WellFormed(s) && Allowed(s, steps)
    ensures Run(s, steps).freed == s.freed + Due(s, Trace(s, steps))
    ensures forall p :: p in s.info ==>
      Owned(Run(s, steps).info[p]) == (Owned(s.info[p]) && !WasOut(Trace(s, steps), p))
    ensures forall p :: p in s.info && !WasOut(Trace(s, steps), p) ==>
      Run(s, steps).info[p].context == s.info[p].context
  {
    hide After, Made, OnlyCurrentYields, Position, Owned;
    if steps != [] {
      var n := |steps| - 1;
      LastStep(s, steps);
      FreesFirstContexts(s, steps[..n]);
      var u, t, tr0, tr := Run(s, steps[..n]), Run(s, steps), Trace(s, steps[..n]), Trace(s, steps);
      assert t.info.Keys == s.info.Keys;
      hide Run, Trace, WellFormed, WasOut;
      if tr != tr0 {
        assert tr[..|tr0|] == tr0;
        forall p: Process ensures WasOut(tr, p) <==> WasOut(tr0, p) || p == u.current {
          WasOutMore(tr0, tr[|tr0|], p);
        }
      }
    }
  }

  // address is the heap-owned context of p, which has lost the processor.
  ghost predicate FreedFor(s: Snapshot, tr: seq<Switch>, p: Process, address: int) {
    p in s.info && Owned(s.info[p]) && WasOut(tr, p) && s.info[p].context == address
  }

  ghost predicate Explained(s: Snapshot, tr: seq<Switch>, address: int) {
    exists p :: p in s.info && FreedFor(s, tr, p, address)
  }

  /** No address is given to kfree twice, if no two heap-owned contexts are the same. */
  lemma {:induction false} FreedOnce(s: Snapshot, tr: seq<Switch>)
    requires forall p, q :: p in s.info && q in s.info && Owned(s.info[p]) && Owned(s.info[q]) && p != q ==>
      s.info[p].context != s.info[q].context
    ensures forall i, j :: 0 <= i < j < |Due(s, tr)| ==> Due(s, tr)[i] != Due(s, tr)[j]
    ensures forall a :: a in Due(s, tr) ==> Explained(s, tr, a)
  {
    hide Owned, WasOut;
    if tr != [] {
      var n := |tr| - 1;
      var less, now := Due(s, tr[..n]), Due(s, tr);
      FreedOnce(s, tr[..n]);
      assert tr[..n] + [tr[n]] == tr;
      forall p: Process ensures WasOut(tr, p) <==> WasOut(tr[..n], p) || tr[n].out == p {
        WasOutMore(tr[..n], tr[n], p);
      }
      forall a | a in now ensures Explained(s, tr, a) {
        if a in less {
          var p :| p in s.info && FreedFor(s, tr[..n], p, a);
          assert FreedFor(s, tr, p, a);
        } else {
          assert FreedFor(s, tr, tr[n].out, a);
        }
      }
      if |less| < |now| {
        assert !Explained(s, tr[..n], now[|less|]);
        assert now[|less|] !in less;
      }
    }
  }

  // ---------------------------------------------------------- round robin

  lemma OnlyPosition(q: seq<Process>, j: int)
    requires Distinct(q) && 0 <= j < |q|
    ensures Position(q, q[j]) == j
  {
  }

  lemma Multiple(d: int, n: int)
    requires n > 0
    ensures (d > 0 ==> d * n >= n) && (d < 0 ==> d * n <= -n)
  {
  }

  lemma Remainder(c: int, r: int, n: int)
    requires 0 <= r < n
    ensures (c * n + r) % n == r
  {
    var x := c * n + r;
    Multiple(x / n - c, n);
    assert (x / n - c) * n == r - x % n;
  }

  lemma FollowIsNext(a: int, n: int)
    requires n > 0
    ensures Follow(a % n, n) == (a + 1) % n
  {
    var c, r := a / n, a % n;
    assert a + 1 == c * n + (r + 1);
    if r + 1 < n {
      Remainder(c, r + 1, n);
    } else {
      assert c * n + n == (c + 1) * n;
      Remainder(c + 1, 0, n);
    }
  }

  /** Round robin: while no process is added, the switches go through the queue in
      order, whatever caused them. */
  lemma {:induction false} Rotates(s: Snapshot, steps: seq<Step>, k: nat)
    requires WellFormed(s) && Allowed(s, steps) && Run(s, steps).queue == s.queue
    requires k < |Trace(s, steps)|
    ensures Trace(s, steps)[k].next == s.queue[(Position(s.queue, s.current) + k + 1) % |s.queue|]
  {
    assert s.current in s.queue;
    hide *;
    SwitchesGoRound(s, steps);
    RotatesOver(Trace(s, steps), s.current, s.queue, k);
  }

  lemma {:induction false} RotatesOver(tr: seq<Switch>, first: Process, q: seq<Process>, k: nat)
    requires AllGoRound(tr, first, |q|, q) && Distinct(q) && first in q && k < |tr|
    ensures tr[k].next == q[(Position(q, first) + k + 1) % |q|]
  {
    hide Follow;
    var i, n := Position(q, first), |q|;
    assert GoesRound(tr[k], Holder(tr, first, k), n, q);
    if k > 0 {
      RotatesOver(tr, first, q, k - 1);
      OnlyPosition(q, (i + k) % n);
    } else {
      Remainder(0, i, n);
    }
    FollowIsNext(i + k, n);
  }

  // How many switches until position j runs, if the queue has n processes and position
  // i is running.
  function Distance(n: int, i: int, j: int): int { if j > i then j - i else n - i + j }

  /** Nobody is skipped: whatever is added in between, a queued process gets the
      processor within as many switches as the queue has processes in the end. */
  lemma EveryoneRuns(s: Snapshot, steps: seq<Step>, j: int)
    requires WellFormed(s) && Allowed(s, steps) && 0 <= j < |s.queue|
    requires |Trace(s, steps)| >= Distance(|Run(s, steps).queue|, Position(s.queue, s.current), j)
    ensures var d := Distance(|Run(s, steps).queue|, Position(s.queue, s.current), j);
      && d <= |Run(s, steps).queue|
      && exists k :: 0 <= k < d && Trace(s, steps)[k].next == s.queue[j]
  {
    hide Run, Trace, Allowed;
    SwitchesGoRound(s, steps);
    var q := Run(s, steps).queue;
    SamePosition(s.queue, q, s.current);
    var k := TurnOf(Trace(s, steps), s.current, |s.queue|, q, 0, j);
  }

  // From switch k on: the switch at which the process at position j gets its turn.
  lemma {:induction false} TurnOf(tr: seq<Switch>, first: Process, least: nat, q: seq<Process>, k: nat, j: int)
    returns (m: nat)
    requires AllGoRound(tr, first, least, q) && Distinct(q) && 0 <= j < least && least <= |q|
    requires k <= |tr| && Holder(tr, first, k) in q
    requires |tr| - k >= Distance(|q|, Position(q, Holder(tr, first, k)), j)
    ensures k <= m < k + Distance(|q|, Position(q, Holder(tr, first, k)), j)
    ensures m < |tr| && tr[m].next == q[j]
    decreases |tr| - k
  {
    var i := Position(q, Holder(tr, first, k));
    assert GoesRound(tr[k], Holder(tr, first, k), least, q);
    var f := Follow(i, tr[k].length);
    OnlyPosition(q, f);
    if f == j {
      m := k;
    } else {
      m := TurnOf(tr, first, least, q, k + 1, j);
    }
  }

  // ------------------------------------------------------------- quantum

  // The ticks that hit p while it had the processor.
  ghost function TicksOf(s: Snapshot, steps: seq<Step>, p: Process): int
    requires WellFormed(s) && Allowed(s, steps)
  {
    if steps == [] then 0
    else
      var n := |steps| - 1;
      var hit := steps[n].Interrupt? && steps[n].timer && Run(s, steps[..n]).current == p;
      TicksOf(s, steps[..n], p) + if hit then 1 else 0
  }

  lemma CountDown(q: int, n: int, q': int)
    requires q' == (q - n) % WORD_RANGE
    ensures (q' - 1) % WORD_RANGE == (q - (n + 1)) % WORD_RANGE
  {
  }

  lemma StepTicks(s: Snapshot, step: Step, p: Process)
    requires WellFormed(s) && (step.Add? ==> step.p in s.info) && p in s.info
    ensures p in After(s, step).info && After(s, step).info[p].quantum ==
      if step.Interrupt? && step.timer && s.current == p then (s.info[p].quantum - 1) % WORD_RANGE
      else s.info[p].quantum
  {
  }

  /** The quantum counts a process's own ticks down, and round through 2^32: it is never
      reloaded. */
  lemma {:induction false} QuantumCountsDown(s: Snapshot, steps: seq<Step>, p: Process)
    requires WellFormed(s) && Allowed(s, steps) && p in s.info
    ensures Run(s, steps).info[p].quantum == (s.info[p].quantum - TicksOf(s, steps, p)) % WORD_RANGE
  {
    hide After, Made, OnlyCurrentYields, Effect, Position;
    if steps != [] {
      var n := |steps| - 1;
      var u, before := Run(s, steps[..n]), TicksOf(s, steps[..n], p);
      LastStep(s, steps);
      QuantumCountsDown(s, steps[..n], p);
      StepTicks(u, steps[n], p);
      CountDown(s.info[p].quantum, before, u.info[p].quantum);
    }
  }

  /** Process p has yielded since it last lost the processor, or was flagged at the start and
      has not lost it. */
  ghost predicate HasYielded(s: Snapshot, steps: seq<Step>, p: Process)
    requires WellFormed(s) && Allowed(s, steps) && p in s.info
    decreases |steps|
  {
    if steps == [] then Yielding(s.info[p])
    else
      var n := |steps| - 1;
      var u := Run(s, steps[..n]);
      (steps[n].Yield? && u.current == p) ||
      (!(Made(u, steps[n]) != [] && u.current == p) && HasYielded(s, steps[..n], p))
  }

  lemma StepFlags(s: Snapshot, step: Step, p: Process)
    requires WellFormed(s) && (step.Add? ==> step.p in s.info) && p in s.info
    ensures var t := After(s, step);
      && p in t.info && Has(t.info[p].flags, PROC_FREE) == Has(s.info[p].flags, PROC_FREE)
      && (Yielding(t.info[p]) <==>
            (step.Yield? && s.current == p) || (!(Made(s, step) != [] && s.current == p) && Yielding(s.info[p])))
  {
    hide Position, Has, With, Without;
    FlagBits(s.info[p].flags);
    FlagBits(Without(s.info[p].flags, PROC_DEBUG_YIELD));
  }

  /** A process is flagged over every run exactly if it has yielded since it last lost the
      processor; its PROC_FREE never changes. */
  lemma {:induction false} FlaggedWhenYielded(s: Snapshot, steps: seq<Step>, p: Process)
    requires WellFormed(s) && Allowed(s, steps) && p in s.info
    ensures var t := Run(s, steps);
      && (Yielding(t.info[p]) <==> HasYielded(s, steps, p))
      && Has(t.info[p].flags, PROC_FREE) == Has(s.info[p].flags, PROC_FREE)
    decreases |steps|
  {
    hide After, Made, OnlyCurrentYields, Has;
    if steps != [] {
      var n := |steps| - 1;
      LastStep(s, steps);
      FlaggedWhenYielded(s, steps[..n], p);
      StepFlags(Run(s, steps[..n]), steps[n], p);
    }
  }

  /** With preemption on and another process queued, the tick after a yield makes the switch. */
  lemma YieldThenTick(s: Snapshot, esp: int)
    requires WellFormed(s) && s.preemption && |s.queue| > 1
    ensures WellFormed(After(s, Yield)) && Made(After(s, Yield), Interrupt(true, esp)) != []
    ensures var f, g := s.info[s.current].flags, After(s, Yield).info[s.current].flags;
      && Without(g, PROC_DEBUG_YIELD) == Without(f, PROC_DEBUG_YIELD)
      && Has(g, PROC_FREE) == Has(f, PROC_FREE)
      && Has(g, PROC_FREE_THREAD_CONTEXT) == Has(f, PROC_FREE_THREAD_CONTEXT)
  {
    hide Position, Has, With, Without;
    FlagBits(s.info[s.current].flags);
    StepKeeps(s, Yield);
    StepFlags(s, Yield, s.current);
  }

  /** What makes a process lose the processor, with preemption on: a tick that finds it
      having yielded since it last lost it, or that is its own quantum-th one up to 2^32 of
      them; and that another process is queued. */
  lemma SwitchedWhen(s: Snapshot, steps: seq<Step>, step: Step)
    requires WellFormed(s) && s.preemption && Allowed(s, steps) && (step.Add? ==> step.p in s.info)
    ensures var t := Run(s, steps);
      Made(t, step) != [] <==> (
        && step.Interrupt? && step.timer && |t.queue| > 1
        && (HasYielded(s, steps, t.current)
            || (s.info[t.current].quantum - TicksOf(s, steps, t.current) - 1) % WORD_RANGE == 0))
  {
    hide Run, TicksOf, HasYielded;
    var t := Run(s, steps);
    FlaggedWhenYielded(s, steps, t.current);
    QuantumCountsDown(s, steps, t.current);
    CountDown(s.info[t.current].quantum, TicksOf(s, steps, t.current), t.info[t.current].quantum);
  }

  // ----------------------------------------------------------- on objects

  class Scheduler {
    var processQueue: Process?       // process_queue
    var current: Process?            // g_current_process
    var preemption: bool             // g_preemption_enabled
    var switching: bool              // g_switch_processes
    var sp: int                      // the stack pointer
    ghost var queue: seq<Process>
    ghost var freed: seq<int>
    ghost const tasks: set<Process>  // all there are

    // The next fields make up the queue.
    ghost predicate Chained()
      reads `processQueue, `queue, queue`next
    {
      && Distinct(queue)
      && (processQueue == if queue == [] then null else queue[0])
      && forall i :: 0 <= i < |queue| ==> queue[i].next == Behind(queue, i)
    }

    ghost predicate Valid()
      reads this, queue`next, tasks`context, tasks`flags, tasks`quantum
    {
      && Chained() && (forall p :: p in queue ==> p in tasks)
      && (current == null || WellFormed(State()))
    }

    ghost function Known(): (m: map<Process, Info>)
      reads tasks`context, tasks`flags, tasks`quantum
      ensures m.Keys == tasks
    {
      map p | p in tasks :: Info(p.context, p.flags, p.quantum)
    }

    ghost function State(): Snapshot
      requires current != null
      reads this, tasks`context, tasks`flags, tasks`quantum
    {
      Snapshot(queue, current, Known(), switching, preemption, sp, freed)
    }

    // scheduler_init
    constructor (ghost tasks: set<Process>)
      ensures Valid() && current == null && queue == [] && preemption && !switching && freed == []
      ensures this.tasks == tasks
    {
      processQueue, current, preemption, switching, sp := null, null, true, false, 0;
      queue, freed, this.tasks := [], [], tasks;
    }

    // The walk of scheduler_add_process, which looks for p behind the first process and
    // otherwise comes to the last one.
    method FindLast(p: Process) returns (node: Process, found: bool)
      requires Chained() && queue != [] && queue[0] != p
      ensures found == (p in queue)
      ensures !found ==> node == queue[|queue| - 1]
    {
      node, found := processQueue, false;
      ghost var i := 0;
      while node.next != null
        invariant 0 <= i < |queue| && node == queue[i]
        invariant forall j :: 0 <= j <= i ==> queue[j] != p
        decreases |queue| - i
      {
        if node.next == p {
          assert queue[i + 1] == p;
          return node, true;
        }
        node := node.next;
        i := i + 1;
      }
    }

    // scheduler_add_process, on the queue alone.
    method Enqueue(p: Process) returns (added: bool)
      requires Chained() && (p in queue || p.next == null)
      modifies `processQueue, `queue, queue`next
      ensures Chained() && added == (p !in old(queue))
      ensures queue == if added then old(queue) + [p] else old(queue)
    {
      added := true;
      if processQueue == null {
        processQueue := p;
        queue := [p];
      } else if processQueue == p {
        added := false;
      } else {
        var node, found := FindLast(p);
        if found {
          added := false;
        } else {
          node.next := p;
          ghost var q := queue;
          queue := queue + [p];
          assert forall j :: 0 <= j < |q| ==> queue[j] == q[j];
        }
      }
    }

    /** scheduler_add_process */
    method AddProcess(p: Process) returns (added: bool)
      requires Valid() && p in tasks && (p in queue || p.next == null)
      modifies `processQueue, `queue, tasks`next
      ensures Valid() && added == (p !in old(queue))
      ensures queue == if added then old(queue) + [p] else old(queue)
      ensures current != null ==> State() == AfterAdd(old(State()), p)
    {
      hide Position, Next, Known, WellFormed, Chained;
      if current != null {
        StepKeeps(State(), Add(p));
      }
      added := Enqueue(p);
      assert current != null ==> State() == After(old(State()), Add(p));
    }

    // scheduler_find_next_best
    method FindNextBest() returns (next: Process)
      requires Chained() && current in queue
      ensures next == Next(queue, current)
    {
      ghost var i := Position(queue, current);
      var n := current.next;
      if n == null {
        n := processQueue;
      }
      next := n;
    }

    method SetFlags(p: Process, flags: bv8)
      requires p in tasks
      modifies p`flags
      ensures Known() == old(Known())[p := Info(p.context, flags, p.quantum)]
    {
      p.flags := flags;
    }

    method SetQuantum(p: Process, quantum: int)
      requires p in tasks
      modifies p`quantum
      ensures p.quantum == quantum && Known() == old(Known())[p := Info(p.context, p.flags, quantum)]
    {
      p.quantum := quantum;
    }

    // The registers of p are at esp; the context it had is freed if it came from the heap.
    method Save(p: Process, esp: int)
      requires p in tasks
      modifies p`context, p`flags, `freed
      ensures var i := Info(old(p.context), old(p.flags), p.quantum);
        && Known() == old(Known())[p := Info(esp, Saving(i.flags), p.quantum)]
        && freed == if Owned(i) then old(freed) + [i.context] else old(freed)
    {
      FlagBits(p.flags);
      FlagBits(Without(p.flags, PROC_DEBUG_YIELD));
      hide Has, With, Without;
      p.flags := Without(p.flags, PROC_DEBUG_YIELD);
      if Has(p.flags, PROC_FREE_THREAD_CONTEXT) {
        p.flags := Without(p.flags, PROC_FREE_THREAD_CONTEXT);
        freed := freed + [p.context];   // kfree
      }
      p.context := esp;
    }

    // process_yield
    method Yield()
      requires Valid() && current != null
      modifies current`flags
      ensures Valid() && State() == AfterYield(old(State()))
    {
      hide Position, Next, Has, With;
      assert Known()[current].flags == current.flags;
      SetFlags(current, With(current.flags, PROC_DEBUG_YIELD));
    }

    lemma RecordOf(p: Process)
      requires p in tasks
      ensures Known()[p] == Info(p.context, p.flags, p.quantum)
    {
    }

    // What the methods read, in terms of the queue and the records.
    lemma QueueFacts()
      requires Valid() && current != null
      ensures Chained() && WellFormed(State()) && current in queue && current in tasks
      ensures processQueue != null && (processQueue.next != null <==> |queue| > 1)
      ensures Known()[current] == Info(current.context, current.flags, current.quantum)
    {
    }

    // scheduler_tick, called from the interrupt stub.
    method Tick()
      requires Valid() && current != null
      modifies `switching, current`quantum
      ensures Chained() && State() == AfterTick(old(State()))
    {
      hide Valid, Has, Chained, WellFormed, Known;
      QueueFacts();
      SetQuantum(current, (current.quantum - 1) % WORD_RANGE);
      if Has(current.flags, PROC_DEBUG_YIELD) || current.quantum == 0 {
        if processQueue.next != null {
          switching := true;
        }
      }
    }

    // scheduler_advance_stage1
    method Stage1(esp: int)
      requires Chained() && current in queue && forall p :: p in queue ==> p in tasks
      modifies `current, `freed, current`context, current`flags
      ensures Chained() && current in queue && State() == AfterStage1(old(State()), esp)
    {
      hide Next, Has, Saving, Known, Chained;
      RecordOf(current);
      Save(current, esp);
      current := FindNextBest();
    }

    // scheduler_advance_stage2
    method Stage2()
      requires current != null && current in tasks
      modifies `sp, `switching
      ensures State() == AfterStage2(old(State()))
    {
      sp := current.context;
      switching := false;
    }

    // The interrupt stub: the handler, and then a switch if one is asked for.
    method Interrupt(timer: bool, esp: int)
      requires Valid() && current != null
      modifies this, current`context, current`flags, current`quantum
      ensures Valid() && current != null && State() == AfterInterrupt(old(State()), timer, esp)
    {
      hide Next, WellFormed, Known, Chained, OnlyCurrentYields, AfterTick, AfterStage1, AfterStage2;
      ghost var s := State();
      QueueFacts();
      StepKeeps(s, Step.Interrupt(timer, esp));
      if timer {
        Tick();
      }
      assert State() == Handled(s, timer);
      if preemption && switching {
        Stage1(esp);
        Stage2();
      }
    }

    // scheduler_bootstrap_thread: p is the first to run.  esp is the stack pointer among
    // the registers saved at its context.
    method Bootstrap(p: Process, esp: int)
      requires Valid() && p in queue && !switching
      requires forall t :: t in tasks ==> 0 <= t.quantum < WORD_RANGE
      modifies `current, `sp
      ensures Valid() && current == p
      ensures State() == Snapshot(old(queue), p, old(Known()), false, old(preemption), esp, old(freed))
    {
      current := p;
      sp := esp;
    }
  }
}
