/** The scheduler's calls as processes make them: in critical regions, one store at a time,
    with ticks wherever the controller lets them through. */
module Callers {
  import opened Machine
  import opened Interrupts
  import opened Atomicity
  import opened Scheduling

  type Steps = seq<Step>

  // The scheduler, and what a process has in registers while it is at one of the calls: the
  // node it has walked to (by its number in the queue), whether it is still walking, the
  // result so far, and a copy of flags.
  datatype State = State(s: Snapshot, node: nat, walking: bool, result: bool, flags: bv8)

  // ------------------------------------------------- scheduler_add_process

  // Up to the loop.
  function Entry(l: State, p: Process): State {
    if l.s.queue == [] then l.(s := l.s.(queue := [p]), walking := false, result := true)
    else l.(node := 0, walking := l.s.queue[0] != p, result := l.s.queue[0] != p)
  }

  // Once round the loop; at the last node it stays where it is.
  function Advance(l: State, p: Process): State {
    if !l.walking || l.node + 1 >= |l.s.queue| then l
    else if l.s.queue[l.node + 1] == p then l.(walking := false, result := false)
    else l.(node := l.node + 1)
  }

  // node->next = p
  function Link(l: State, p: Process): State {
    if !l.walking || l.node >= |l.s.queue| then l
    else l.(s := l.s.(queue := l.s.queue[..l.node + 1] + [p]), walking := false)
  }

  function Walk(p: Process, n: nat): Program<State> {
    if n == 0 then Do(l => Link(l, p), Stop) else Do(l => Advance(l, p), Walk(p, n - 1))
  }

  // ------------------------------------------------------------ process_yield

  function Load(l: State): State {
    if l.s.current in l.s.info then l.(flags := l.s.info[l.s.current].flags) else l
  }

  function Flag(l: State): State { l.(flags := With(l.flags, PROC_DEBUG_YIELD)) }

  function Store(l: State): State {
    if l.s.current !in l.s.info then l else
    var i := l.s.info[l.s.current];
    l.(s := l.s.(info := l.s.info[l.s.current := Info(i.context, l.flags, i.quantum)]))
  }

  // What a call does, store by store, with n rounds of the loop at most.
  function Body(call: Step, n: nat): Program<State> {
    match call
    case Add(p) => Do(l => Entry(l, p), Walk(p, n))
    case _ => Do(Load, Do(Flag, Do(Store, Stop)))
  }

  // Calls one after the other, each in its region.
  function Code(calls: Steps, n: nat): Program<State> {
    if calls == [] then Stop else Guarded(Body(calls[0], n), Code(calls[1..], n))
  }

  // A process adds others, and yields.
  predicate Own(calls: Steps) { forall k :: 0 <= k < |calls| ==> !calls[k].Interrupt? }

  // ---------------------------------------------------- a call by itself

  lemma {:induction false} WalkAlone(l: State, p: Process, n: nat)
    requires l.walking ==> l.node < |l.s.queue| && p !in l.s.queue[..l.node + 1] && |l.s.queue| <= l.node + 1 + n
    ensures Alone(Walk(p, n), l).s == if l.walking then AfterAdd(l.s, p) else l.s
    ensures l.walking && l.result ==> Alone(Walk(p, n), l).result == (p !in l.s.queue)
    ensures !l.walking ==> Alone(Walk(p, n), l).result == l.result
    decreases n
  {
    if n > 0 {
      var l1 := Advance(l, p);
      WalkAlone(l1, p, n - 1);
    } else if l.walking {
      assert l.s.queue[..l.node + 1] == l.s.queue;
    }
  }

  /** Whatever the queue, and also before there is one, the process is added unless it is there,
      and that is what the caller is told. */
  lemma AddedAlways(l: State, p: Process, n: nat)
    requires |l.s.queue| <= n
    ensures Alone(Body(Add(p), n), l).s == AfterAdd(l.s, p)
    ensures Alone(Body(Add(p), n), l).result == (p !in l.s.queue)
  {
    WalkAlone(Entry(l, p), p, n);
  }

  lemma CallAlone(l: State, call: Step, n: nat)
    requires WellFormed(l.s) && !call.Interrupt? && |l.s.queue| <= n
    ensures Alone(Body(call, n), l).s == After(l.s, call)
  {
    match call
    case Add(p) =>
      AddedAlways(l, p, n);
    case Yield =>
      var last := Do(Store, Stop);
      assert Alone(last, Flag(Load(l))) == Store(Flag(Load(l)));
      assert Alone(Do(Flag, last), Load(l)) == Store(Flag(Load(l)));
  }

  // A queue is no longer than there are processes.
  lemma {:induction false} QueueFits(q: seq<Process>, all: set<Process>)
    requires Distinct(q) && forall p :: p in q ==> p in all
    ensures |q| <= |all|
  {
    if q != [] {
      var n := |q| - 1;
      QueueFits(q[..n], all - {q[n]});
    }
  }

  // --------------------------------------------------------- with interrupts

  // What comes between is a run of the scheduler: a tick, and whatever the other processes
  // do until this one goes on, with its registers as they were.
  ghost function Serve(): (State, Steps) -> State {
    (l: State, b: Steps) => if WellFormed(l.s) && Allowed(l.s, b) then l.(s := Run(l.s, b)) else l
  }

  // No other interrupt reaches the scheduler, so that masking the timer is enough.
  lemma OnlyTimerMatters(s: Snapshot, esp: int)
    requires WellFormed(s)
    ensures After(s, Interrupt(false, esp)) == s
  {
  }

  function OrNone(a: Option<Steps>): Steps { if a.Some? then a.value else [] }

  // The calls, with what came before and after each.
  function Woven(calls: Steps, held: seq<Option<Steps>>): Steps
    requires |held| == 2 * |calls|
  {
    if calls == [] then []
    else OrNone(held[0]) + ([calls[0]] + (OrNone(held[1]) + Woven(calls[1..], held[2..])))
  }

  lemma AllowedTwice(s: Snapshot, t: Snapshot, a: Steps, b: Steps)
    requires Allowed(s, a) && Allowed(s, b) && t.info.Keys == s.info.Keys
    ensures Allowed(s, a + b) && Allowed(t, b)
  {
  }

  lemma AllowedPart(s: Snapshot, a: Steps, n: nat)
    requires Allowed(s, a) && n <= |a|
    ensures Allowed(s, a[..n]) && Allowed(s, a[n..])
  {
  }

  lemma {:induction false} RunTwice(s: Snapshot, a: Steps, b: Steps)
    requires WellFormed(s) && Allowed(s, a) && Allowed(s, b)
    ensures Allowed(s, a + b) && Allowed(Run(s, a), b)
    ensures Run(s, a + b) == Run(Run(s, a), b)
    decreases |b|
  {
    hide Allowed, WellFormed, After, OnlyCurrentYields;
    AllowedTwice(s, Run(s, a), a, b);
    if b == [] {
      assert a + b == a;
    } else {
      var n := |b| - 1;
      AllowedPart(s, b, n);
      RunTwice(s, a, b[..n]);
      assert (a + b)[..|a + b| - 1] == a + b[..n];
    }
  }

  // What is served between two actions.
  lemma Served(m: Cpu<State, Steps>, a: Option<Steps>)
    requires WellFormed(m.state.s) && Allowed(m.state.s, OrNone(a)) && !Masked(m.mask, IRQ_PIT) && m.pending.None?
    ensures var t := Instant(m, a, Serve());
      && t == Cpu(m.mask, m.state.(s := Run(m.state.s, OrNone(a))), None)
      && WellFormed(t.state.s) && t.state.s.info.Keys == m.state.s.info.Keys
  {
    hide Masked, OnlyCurrentYields;
  }

  lemma OneCall(s: Snapshot, call: Step)
    requires WellFormed(s) && Allowed(s, [call])
    ensures var t := After(s, call);
      WellFormed(t) && t.info.Keys == s.info.Keys && Run(s, [call]) == t
  {
    hide WellFormed, After, OnlyCurrentYields;
    assert [call][..0] == [];
    assert Run(s, [call]) == After(s, call);
  }

  lemma AllowedIn(s: Snapshot, t: Snapshot, b: Steps)
    requires Allowed(s, b) && t.info.Keys == s.info.Keys
    ensures Allowed(t, b)
  {
  }

  lemma TwoActions(d: Program<State>, m: Cpu<State, Steps>, held: seq<Option<Steps>>)
    requires d.Do? && d.next.Do? && |held| == Instants(d) && |held| >= 2
    ensures |held[2..]| == Instants(d.next.next)
    ensures var t := Instant(m.(state := d.f(m.state)), held[0], Serve());
      var v := Instant(t.(state := d.next.f(t.state)), held[1], Serve());
      Exec(d, m, held, Serve()) == Exec(d.next.next, v, held[2..], Serve())
  {
    assert held == [held[0]] + ([held[1]] + held[2..]);
    OneAction(d.next, Instant(m.(state := d.f(m.state)), held[0], Serve()), held[1], held[2..], Serve());
    OneAction(d, m, held[0], [held[1]] + held[2..], Serve());
  }

  lemma CodeIs(calls: Steps, n: nat)
    requires calls != []
    ensures Code(calls, n) == Guarded(Body(calls[0], n), Code(calls[1..], n))
  {
  }

  lemma NoCalls(n: nat, m: Cpu<State, Steps>)
    requires WellFormed(m.state.s)
    ensures Instants(Atomic(Code([], n))) == 0 && Exec(Atomic(Code([], n)), m, [], Serve()) == m
    ensures Allowed(m.state.s, []) && Run(m.state.s, []) == m.state.s
  {
  }

  // A run put together from its parts.
  lemma Joined(s: Snapshot, a: Steps, call: Step, b: Steps, more: Steps)
    requires WellFormed(s) && Allowed(s, a) && Allowed(s, [call]) && Allowed(s, b) && Allowed(s, more)
    ensures Allowed(s, a + ([call] + (b + more))) && Allowed(Run(s, a), [call])
    ensures var t := After(Run(s, a), call);
      && WellFormed(t) && Allowed(t, b) && Allowed(Run(t, b), more)
      && Run(s, a + ([call] + (b + more))) == Run(Run(t, b), more)
  {
    hide WellFormed, After, OnlyCurrentYields, Allowed;
    var u := Run(s, a);
    AllowedIn(s, u, [call]);
    AllowedIn(s, u, b);
    AllowedIn(s, u, more);
    OneCall(u, call);
    var t := After(u, call);
    AllowedIn(u, t, b);
    AllowedIn(u, t, more);
    AllowedTwice(t, Run(t, b), b, more);
    RunTwice(t, b, more);
    AllowedTwice(u, s, b, more);
    RunTwice(u, [call], b + more);
    AllowedTwice(s, u, [call], b + more);
    RunTwice(s, a, [call] + (b + more));
  }

  // Code is regions only: each is a test, and then a call.
  lemma {:induction false} ActionsInterleave(calls: Steps, n: nat, m: Cpu<State, Steps>, held: seq<Option<Steps>>)
    requires |held| == Instants(Atomic(Code(calls, n))) == 2 * |calls|
    requires Own(calls) && WellFormed(m.state.s) && Allowed(m.state.s, calls) && |m.state.s.info.Keys| <= n
    requires !Masked(m.mask, IRQ_PIT) && m.pending.None?
    requires forall k :: 0 <= k < |held| ==> Allowed(m.state.s, OrNone(held[k]))
    ensures Allowed(m.state.s, Woven(calls, held))
    ensures Exec(Atomic(Code(calls, n)), m, held, Serve()).state.s == Run(m.state.s, Woven(calls, held))
  {
    hide Masked, WellFormed, After, OnlyCurrentYields, Body, Allowed, Exec, Instants, Atomic, Instant, Alone, Run, Serve;
    if calls == [] {
      AllowedNone(m.state.s);
      NoCalls(n, m);
    } else {
      var c, l, more := Code(calls, n), m.state, Woven(calls[1..], held[2..]);
      var d := Atomic(c);
      AtomicIs(c);
      Served(m, held[0]);
      var t := Instant(m, held[0], Serve());
      AllowedPart(l.s, calls, 1);
      assert calls[..1] == [calls[0]];
      AllowedIn(l.s, t.state.s, [calls[0]]);
      QueueBound(t.state.s);
      CallAlone(t.state, calls[0], n);
      OneCall(t.state.s, calls[0]);
      var u := t.(state := Alone(c.body, t.state));
      AllowedIn(l.s, u.state.s, OrNone(held[1]));
      Served(u, held[1]);
      var v := Instant(u, held[1], Serve());
      forall k | 0 <= k < |held[2..]| ensures Allowed(v.state.s, OrNone(held[2..][k])) {
        AllowedIn(l.s, v.state.s, OrNone(held[k + 2]));
      }
      AllowedIn(l.s, v.state.s, calls[1..]);
      TwoActions(d, m, held);
      CodeIs(calls, n);
      ActionsInterleave(calls[1..], n, v, held[2..]);
      AllowedIn(v.state.s, l.s, more);
      Joined(l.s, OrNone(held[0]), calls[0], OrNone(held[1]), more);
    }
  }

  lemma QueueBound(s: Snapshot)
    requires WellFormed(s)
    ensures |s.queue| <= |s.info.Keys|
  {
    QueueFits(s.queue, s.info.Keys);
  }

  /** A process makes its calls store by store, each in a region, and is interrupted whenever
      the controller lets it be.  The scheduler ends as after a run in which each call is a
      single step, with what came between between the calls: so all that holds over every
      run holds.  n need only be as large as there are processes. */
  lemma CallsInterleave(calls: Steps, n: nat, m: Cpu<State, Steps>, arrivals: seq<Option<Steps>>)
    requires |arrivals| == Instants(Code(calls, n))
    requires Own(calls) && WellFormed(m.state.s) && Allowed(m.state.s, calls) && |m.state.s.info.Keys| <= n
    requires !Masked(m.mask, IRQ_PIT) && m.pending.None?
    requires forall k :: 0 <= k < |arrivals| ==> Allowed(m.state.s, OrNone(arrivals[k]))
    ensures var held := Held(Code(calls, n), m, arrivals, Serve());
      && |held| == 2 * |calls| && Allowed(m.state.s, Woven(calls, held)) && AllAmong(held, arrivals, None)
      && Exec(Code(calls, n), m, arrivals, Serve()).state.s == Run(m.state.s, Woven(calls, held))
  {
    hide Masked, WellFormed, Allowed, Serve, Exec, Held, Code;
    var c := Code(calls, n);
    var held := Held(c, m, arrivals, Serve());
    RegionsAreAtomic(c, m, arrivals, Serve());
    NothingInvented(c, m, arrivals, Serve());
    AllowedNone(m.state.s);
    TwoEach(calls, n);
    forall k | 0 <= k < |held| ensures Allowed(m.state.s, OrNone(held[k])) {
      assert Among(held[k], arrivals, None);
    }
    ActionsInterleave(calls, n, m, held);
  }

  lemma {:induction false} TwoEach(calls: Steps, n: nat)
    ensures Instants(Atomic(Code(calls, n))) == 2 * |calls|
  {
    if calls != [] { TwoEach(calls[1..], n); }
  }

  lemma AllowedNone(s: Snapshot)
    ensures Allowed(s, [])
  {
  }

  /** What the region is for: without it, a process that another adds between the walk and
      the store is lost from the queue. */
  lemma LostWithoutRegion(l: State, mask: bv16, p: Process, q: Process)
    requires WellFormed(l.s) && |l.s.queue| == 1 && p in l.s.info && q in l.s.info && !Masked(mask, IRQ_PIT)
    requires p != q && p != l.s.current && q != l.s.current
    ensures var c := Body(Add(p), 0); var arrivals := [Some([Add(q)]), None];
      && |arrivals| == Instants(c)
      && var t := Exec(c, Cpu(mask, l, None), arrivals, Serve()).state.s;
      p in t.queue && q !in t.queue
  {
    hide Masked;
    var first, link := Entry(l, p), Walk(p, 0);
    var arrivals := [Some([Add(q)]), None];
    AddAlone(l.s, q);
    var m1 := Cpu(mask, l.(s := AfterAdd(l.s, q), node := 0, walking := true, result := true), None);
    assert Instant(Cpu(mask, first, None), Some([Add(q)]), Serve()) == m1;
    assert Exec(link, m1, [None], Serve()).state == Link(m1.state, p);
    assert arrivals[1..] == [None];
    assert Exec(Body(Add(p), 0), Cpu(mask, l, None), arrivals, Serve()) == Exec(link, m1, arrivals[1..], Serve());
  }

  lemma AddAlone(s: Snapshot, q: Process)
    requires WellFormed(s) && q in s.info
    ensures Allowed(s, [Add(q)]) && Run(s, [Add(q)]) == AfterAdd(s, q)
  {
    assert [Add(q)][..0] == [];
    assert Run(s, []) == s;
  }
}
