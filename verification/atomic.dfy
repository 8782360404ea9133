/** What critical regions are for: whatever the timer interrupts, a region takes effect at
    once. */
module Atomicity {
  import opened Machine
  import opened Interrupts

  // Kernel code that works on state S: single stores, and regions around them.
  datatype Program<!S> =
    | Stop
    | Do(f: S -> S, next: Program<S>)
    | Guarded(body: Program<S>, next: Program<S>)

  // The mask, the state, and the timer interrupt the controller holds back, if any: there
  // is one bit for it, so that a second one is lost.
  datatype Cpu<S, T> = Cpu(mask: bv16, state: S, pending: Option<T>)

  // Between two actions an interrupt may arrive; it is served unless the timer is masked.
  function Instant<S, T>(m: Cpu<S, T>, a: Option<T>, serve: (S, T) -> S): Cpu<S, T> {
    var p := if m.pending.Some? then m.pending else a;
    if p.None? || Masked(m.mask, IRQ_PIT) then m.(pending := p) else Cpu(m.mask, serve(m.state, p.value), None)
  }

  // The instants during c: one after each action, and for a region one each after the test of
  // irq_mask, the masking and the unmasking.
  function Instants<S>(c: Program<S>): nat {
    match c
    case Stop => 0
    case Do(_, next) => 1 + Instants(next)
    case Guarded(body, next) => 3 + Instants(body) + Instants(next)
  }

  /** c with the interrupts that arrive. */
  function Exec<S, T>(c: Program<S>, m: Cpu<S, T>, arrivals: seq<Option<T>>, serve: (S, T) -> S): Cpu<S, T>
    requires |arrivals| == Instants(c)
    decreases c, 0
  {
    match c
    case Stop => m
    case Do(f, next) => Exec(next, Instant(m.(state := f(m.state)), arrivals[0], serve), arrivals[1..], serve)
    case Guarded(body, next) =>
      var n := 2 + Instants(body);
      var r := Region(body, Instant(m, arrivals[0], serve), arrivals[1..n], serve);
      Exec(next, Instant(r, arrivals[n], serve), arrivals[n + 1..], serve)
  }

  // A region from its test, which m has just made, up to the unmasking.  The mask is one
  // here; what its being in two places means is the matter of Exclusion.
  function Region<S, T>(body: Program<S>, m: Cpu<S, T>, arrivals: seq<Option<T>>, serve: (S, T) -> S): Cpu<S, T>
    requires |arrivals| == 1 + Instants(body)
    decreases body, 1
  {
    var locked := Instant(m.(mask := WithIrq(m.mask, IRQ_PIT, true)), arrivals[0], serve);
    var inside := Exec(body, locked, arrivals[1..], serve);
    inside.(mask := Left(inside.mask, Masked(m.mask, IRQ_PIT)))
  }

  // c with nothing coming between.
  function Alone<S>(c: Program<S>, s: S): S {
    match c
    case Stop => s
    case Do(f, next) => Alone(next, f(s))
    case Guarded(body, next) => Alone(next, Alone(body, s))
  }

  /** While the timer is masked nothing comes between, however regions are nested. */
  lemma {:induction false} NothingBetween<S, T>(c: Program<S>, m: Cpu<S, T>, arrivals: seq<Option<T>>,
                                                serve: (S, T) -> S)
    requires |arrivals| == Instants(c) && Masked(m.mask, IRQ_PIT)
    ensures var r := Exec(c, m, arrivals, serve);
      r.mask == m.mask && r.state == Alone(c, m.state) && (m.pending.Some? ==> r.pending == m.pending)
    decreases c, 0
  {
    hide Masked, WithIrq;
    match c
    case Stop =>
    case Do(f, next) => NothingBetween(next, Instant(m.(state := f(m.state)), arrivals[0], serve), arrivals[1..], serve);
    case Guarded(body, next) =>
      var n := 2 + Instants(body);
      var tested := Instant(m, arrivals[0], serve);
      RegionAlone(body, tested, arrivals[1..n], serve);
      var r := Region(body, tested, arrivals[1..n], serve);
      NothingBetween(next, Instant(r, arrivals[n], serve), arrivals[n + 1..], serve);
  }

  /** From the test to the unmasking a region runs alone, and leaves the mask as it was. */
  lemma {:induction false} RegionAlone<S, T>(body: Program<S>, m: Cpu<S, T>, arrivals: seq<Option<T>>,
                                             serve: (S, T) -> S)
    requires |arrivals| == 1 + Instants(body) && (m.pending.Some? ==> Masked(m.mask, IRQ_PIT))
    ensures var r := Region(body, m, arrivals, serve);
      r.mask == m.mask && r.state == Alone(body, m.state) && (m.pending.Some? ==> r.pending == m.pending)
    decreases body, 1
  {
    hide Masked, WithIrq;
    var locked := Instant(m.(mask := WithIrq(m.mask, IRQ_PIT, true)), arrivals[0], serve);
    OneIrq(m.mask, IRQ_PIT, true, IRQ_PIT);
    NothingBetween(body, locked, arrivals[1..], serve);
    LeftAgain(m.mask);
  }

  // The same code with each outermost region as a single action, behind one that does
  // nothing, its test.
  function Atomic<S>(c: Program<S>): Program<S> {
    match c
    case Stop => Stop
    case Do(f, next) => Do(f, Atomic(next))
    case Guarded(body, next) => Do(s => s, Do(s => Alone(body, s), Atomic(next)))
  }

  // The interrupts as they come for Atomic(c): one that comes during a region is held back to its end.
  function Held<S, T>(c: Program<S>, m: Cpu<S, T>, arrivals: seq<Option<T>>, serve: (S, T) -> S): (r: seq<Option<T>>)
    requires |arrivals| == Instants(c)
    ensures |r| == Instants(Atomic(c))
  {
    match c
    case Stop => []
    case Do(f, next) =>
      [arrivals[0]] + Held(next, Instant(m.(state := f(m.state)), arrivals[0], serve), arrivals[1..], serve)
    case Guarded(body, next) =>
      var n := 2 + Instants(body);
      var r := Region(body, Instant(m, arrivals[0], serve), arrivals[1..n], serve);
      var a := if r.pending.Some? then r.pending else arrivals[n];
      [arrivals[0]] + ([a] + Held(next, Instant(r, arrivals[n], serve), arrivals[n + 1..], serve))
  }

  lemma NothingRuns<S, T>(c: Program<S>, m: Cpu<S, T>, arrivals: seq<Option<T>>, serve: (S, T) -> S)
    requires c.Stop? && |arrivals| == Instants(c)
    ensures Exec(c, m, arrivals, serve) == m && Held(c, m, arrivals, serve) == [] && AllAmong([], arrivals, m.pending)
    ensures Atomic(c) == c && arrivals == []
  {
  }

  // What comes behind an action, and what was held back for it.
  lemma ActionFirst<S, T>(c: Program<S>, m: Cpu<S, T>, arrivals: seq<Option<T>>, serve: (S, T) -> S)
    requires c.Do? && |arrivals| == Instants(c)
    ensures |arrivals| == 1 + Instants(c.next)
    ensures var after := Instant(m.(state := c.f(m.state)), arrivals[0], serve);
      && Exec(c, m, arrivals, serve) == Exec(c.next, after, arrivals[1..], serve)
      && Held(c, m, arrivals, serve) == [arrivals[0]] + Held(c.next, after, arrivals[1..], serve)
  {
  }

  // The same of a region.
  lemma RegionFirst<S, T>(c: Program<S>, m: Cpu<S, T>, arrivals: seq<Option<T>>, serve: (S, T) -> S)
    requires c.Guarded? && |arrivals| == Instants(c)
    ensures |arrivals| == 3 + Instants(c.body) + Instants(c.next)
    ensures var n := 2 + Instants(c.body); var r := Region(c.body, Instant(m, arrivals[0], serve), arrivals[1..n], serve);
      var after := Instant(r, arrivals[n], serve); var a := if r.pending.Some? then r.pending else arrivals[n];
      && Exec(c, m, arrivals, serve) == Exec(c.next, after, arrivals[n + 1..], serve)
      && Held(c, m, arrivals, serve) == [arrivals[0]] + ([a] + Held(c.next, after, arrivals[n + 1..], serve))
  {
  }

  lemma OneAction<S, T>(d: Program<S>, m: Cpu<S, T>, a: Option<T>, held: seq<Option<T>>, serve: (S, T) -> S)
    requires d.Do? && |held| == Instants(d.next)
    ensures Instants(d) == 1 + |held|
    ensures Exec(d, m, [a] + held, serve) == Exec(d.next, Instant(m.(state := d.f(m.state)), a, serve), held, serve)
  {
    assert ([a] + held)[1..] == held;
  }

  lemma AtomicIs<S>(c: Program<S>)
    ensures c.Do? ==> Atomic(c) == Do(c.f, Atomic(c.next))
    ensures c.Guarded? ==>
      var d := Atomic(c);
      d.Do? && d.next.Do? && d.next.next == Atomic(c.next)
      && (forall s :: d.f(s) == s) && forall s :: d.next.f(s) == Alone(c.body, s)
  {
  }

  /** Whatever arrives when, code with regions ends as if each of its regions were a
      single action, with the interrupts between the actions. */
  lemma {:induction false} RegionsAreAtomic<S, T>(c: Program<S>, m: Cpu<S, T>, arrivals: seq<Option<T>>,
                                                  serve: (S, T) -> S)
    requires |arrivals| == Instants(c) && (m.pending.Some? ==> Masked(m.mask, IRQ_PIT))
    ensures Exec(c, m, arrivals, serve) == Exec(Atomic(c), m, Held(c, m, arrivals, serve), serve)
  {
    hide Masked, Exec, Held, Instants, Region, Atomic, Alone, WithIrq;
    AtomicIs(c);
    match c
    case Stop => NothingRuns(c, m, arrivals, serve);
    case Do(f, next) =>
      ActionFirst(c, m, arrivals, serve);
      var after := Instant(m.(state := f(m.state)), arrivals[0], serve);
      RegionsAreAtomic(next, after, arrivals[1..], serve);
      OneAction(Atomic(c), m, arrivals[0], Held(next, after, arrivals[1..], serve), serve);
    case Guarded(body, next) =>
      RegionFirst(c, m, arrivals, serve);
      var n := 2 + Instants(body);
      var tested := Instant(m, arrivals[0], serve);
      RegionAlone(body, tested, arrivals[1..n], serve);
      var r := Region(body, tested, arrivals[1..n], serve);
      var after := Instant(r, arrivals[n], serve);
      RegionsAreAtomic(next, after, arrivals[n + 1..], serve);
      var a, held := if r.pending.Some? then r.pending else arrivals[n], Held(next, after, arrivals[n + 1..], serve);
      assert Instant(tested.(state := Alone(body, tested.state)), a, serve) == after;
      OneAction(Atomic(c).next, tested, a, held, serve);
      OneAction(Atomic(c), m, arrivals[0], [a] + held, serve);
  }

  // Unlocking right after locking.
  lemma LeftAgain(mask: bv16)
    ensures Left(WithIrq(mask, IRQ_PIT, true), Masked(mask, IRQ_PIT)) == mask
  {
    hide Masked, WithIrq;
    if Masked(mask, IRQ_PIT) {
      NothingToDo(mask, IRQ_PIT, true);
    } else {
      LastWins(mask, IRQ_PIT, true, false);
      NothingToDo(mask, IRQ_PIT, false);
    }
  }

  // a is none, p, or one of arrivals.
  predicate Among<T(==)>(a: Option<T>, arrivals: seq<Option<T>>, p: Option<T>) {
    a.None? || a == p || a in arrivals
  }

  ghost predicate AllAmong<T>(held: seq<Option<T>>, arrivals: seq<Option<T>>, p: Option<T>) {
    forall k :: 0 <= k < |held| ==> Among(held[k], arrivals, p)
  }

  lemma AmongMore<T>(a: Option<T>, p: Option<T>, arrivals: seq<Option<T>>, lo: nat, hi: nat, q: Option<T>)
    requires lo <= hi <= |arrivals| && Among(a, arrivals[lo..hi], p) && Among(p, arrivals, q)
    ensures Among(a, arrivals, q)
  {
  }

  // What is said of the code behind an action, for all of it.
  lemma AllAmongMore<T>(end: Option<T>, held: seq<Option<T>>, p: Option<T>, arrivals: seq<Option<T>>, n: nat, q: Option<T>)
    requires n <= |arrivals| && Among(p, arrivals, q)
    requires Among(end, arrivals[n..], p) && AllAmong(held, arrivals[n..], p)
    ensures Among(end, arrivals, q) && AllAmong(held, arrivals, q)
  {
    assert arrivals[n..] == arrivals[n..|arrivals|];
    AmongMore(end, p, arrivals, n, |arrivals|, q);
    forall k | 0 <= k < |held| ensures Among(held[k], arrivals, q) {
      AmongMore(held[k], p, arrivals, n, |arrivals|, q);
    }
  }

  lemma AmongFirst<T>(a: Option<T>, held: seq<Option<T>>, arrivals: seq<Option<T>>, p: Option<T>)
    requires Among(a, arrivals, p) && AllAmong(held, arrivals, p)
    ensures AllAmong([a] + held, arrivals, p)
  {
  }

  lemma InstantAmong<S, T>(m: Cpu<S, T>, arrivals: seq<Option<T>>, k: nat, serve: (S, T) -> S, p: Option<T>)
    requires k < |arrivals| && Among(m.pending, arrivals, p)
    ensures Among(arrivals[k], arrivals, p) && Among(Instant(m, arrivals[k], serve).pending, arrivals, p)
  {
  }

  // The interrupts held back to the end of a region, and each one held back, did arrive.
  lemma {:induction false} RegionInvented<S, T>(body: Program<S>, m: Cpu<S, T>, arrivals: seq<Option<T>>,
                                                serve: (S, T) -> S)
    requires |arrivals| == 1 + Instants(body)
    ensures Among(Region(body, m, arrivals, serve).pending, arrivals, m.pending)
    decreases body, 1
  {
    hide Masked, WithIrq, Left, Among, Exec, Held, Instant;
    var locked := m.(mask := WithIrq(m.mask, IRQ_PIT, true));
    SelfAmong(arrivals, m.pending);
    InstantAmong(locked, arrivals, 0, serve, m.pending);
    var inside := Instant(locked, arrivals[0], serve);
    NothingInvented(body, inside, arrivals[1..], serve);
    assert arrivals[1..] == arrivals[1..|arrivals|];
    AmongMore(Exec(body, inside, arrivals[1..], serve).pending, inside.pending, arrivals, 1, |arrivals|, m.pending);
  }

  lemma {:induction false} NothingInvented<S, T>(c: Program<S>, m: Cpu<S, T>, arrivals: seq<Option<T>>,
                                                 serve: (S, T) -> S)
    requires |arrivals| == Instants(c)
    ensures Among(Exec(c, m, arrivals, serve).pending, arrivals, m.pending)
    ensures AllAmong(Held(c, m, arrivals, serve), arrivals, m.pending)
    decreases c, 0
  {
    hide Masked, Among, AllAmong, Exec, Held, Instants, Instant, Region, Atomic;
    var p, end := m.pending, Exec(c, m, arrivals, serve).pending;
    SelfAmong(arrivals, p);
    match c
    case Stop => NothingRuns(c, m, arrivals, serve);
    case Do(f, next) =>
      ActionFirst(c, m, arrivals, serve);
      var m1 := Instant(m.(state := f(m.state)), arrivals[0], serve);
      var held := Held(next, m1, arrivals[1..], serve);
      NothingInvented(next, m1, arrivals[1..], serve);
      InstantAmong(m.(state := f(m.state)), arrivals, 0, serve, p);
      AllAmongMore(end, held, m1.pending, arrivals, 1, p);
      AmongFirst(arrivals[0], held, arrivals, p);
    case Guarded(body, next) =>
      RegionFirst(c, m, arrivals, serve);
      var n := 2 + Instants(body);
      var tested := Instant(m, arrivals[0], serve);
      var r := Region(body, tested, arrivals[1..n], serve);
      var m1 := Instant(r, arrivals[n], serve);
      var a, held := if r.pending.Some? then r.pending else arrivals[n], Held(next, m1, arrivals[n + 1..], serve);
      RegionInvented(body, tested, arrivals[1..n], serve);
      NothingInvented(next, m1, arrivals[n + 1..], serve);
      InstantAmong(m, arrivals, 0, serve, p);
      AmongMore(r.pending, tested.pending, arrivals, 1, n, p);
      InstantAmong(r, arrivals, n, serve, p);
      AllAmongMore(end, held, m1.pending, arrivals, n + 1, p);
      AmongFirst(a, held, arrivals, p);
      AmongFirst(arrivals[0], [a] + held, arrivals, p);
  }

  lemma SelfAmong<T>(arrivals: seq<Option<T>>, p: Option<T>)
    ensures Among(p, arrivals, p)
  {
  }
}
