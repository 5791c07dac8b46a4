/** The lock-free logical clock (evorule-governance/src/clock.rs): any number of threads, each going through
    its operation one atomic access at a time, in any interleaving. */
module Clock {
  import opened Base

  type ThreadId = nat

  /** A completed operation, with its argument. */
  datatype Op = Tick | Merge(other: u64) | AdvanceTo(target: u64)

  /** Where a thread stands: about to load, or about to compare-and-swap against what it saw. */
  datatype Pc = Idle | AtLoad(op: Op) | AtSwap(op: Op, seen: u64)

  /** `history` lists the operations in the order they took effect, each with the value it left. */
  datatype Done = Done(thread: ThreadId, op: Op, left: u64)

  datatype Sys = Sys(counter: u64, threads: map<ThreadId, Pc>, history: seq<Done>)

  const START: Sys := Sys(0, map[], [])

  function PcOf(s: Sys, t: ThreadId): Pc {
    if t in s.threads then s.threads[t] else Idle
  }

  function Max(a: nat, b: nat): nat {
    if a >= b then a else b
  }

  /** One atomic access by one thread. `Call` begins a merge or an advance; a tick is a single fetch-and-add. */
  datatype Step = DoTick(t: ThreadId) | Call(t: ThreadId, op: Op) | Load(t: ThreadId) | Swap(t: ThreadId)

  /** The value a thread tries to swap in. */
  function Wanted(op: Op, seen: u64): u64 {
    match op
    case Tick => (seen + 1) % U64_SIZE
    case Merge(other) => (Max(seen, other) + 1) % U64_SIZE
    case AdvanceTo(target) => target
  }

  function Finish(s: Sys, t: ThreadId, op: Op, left: u64): Sys {
    Sys(left, s.threads[t := Idle], s.history + [Done(t, op, left)])
  }

  /** A step that a thread is not ready for does nothing. */
  function Next(s: Sys, step: Step): Sys {
    var pc := PcOf(s, step.t);
    match step
    case DoTick(t) => if pc == Idle then Finish(s, t, Tick, Wanted(Tick, s.counter)) else s
    case Call(t, op) => if pc == Idle && op != Tick then s.(threads := s.threads[t := AtLoad(op)]) else s
    case Load(t) =>
      if !pc.AtLoad? then s
      else if pc.op.AdvanceTo? && s.counter >= pc.op.target then Finish(s, t, pc.op, s.counter)
      else s.(threads := s.threads[t := AtSwap(pc.op, s.counter)])
    case Swap(t) =>
      if !pc.AtSwap? then s
      else if s.counter == pc.seen then Finish(s, t, pc.op, Wanted(pc.op, pc.seen))
      else s.(threads := s.threads[t := AtLoad(pc.op)])
  }

  function Run(s: Sys, steps: seq<Step>): Sys {
    if steps == [] then s else Next(Run(s, steps[..|steps| - 1]), steps[|steps| - 1])
  }

  // ---------------------------------------------------------------- what the operations mean

  /** The effect of an operation performed all at once. */
  function Effect(op: Op, c: nat): nat {
    match op
    case Tick => c + 1
    case Merge(other) => Max(c, other) + 1
    case AdvanceTo(target) => Max(c, target)
  }

  /** The counter after performing the first `n` operations of a history one after the other. */
  function Sequential(history: seq<Done>, n: nat): nat
    requires n <= |history|
  {
    if n == 0 then 0 else Effect(history[n - 1].op, Sequential(history, n - 1))
  }

  /** Every operation left exactly the value that performing the history one by one leaves. */
  predicate Atomic(history: seq<Done>) {
    forall i | 0 <= i < |history| :: AtomicAt(history, i)
  }

  predicate AtomicAt(history: seq<Done>, i: nat)
    requires i < |history|
  {
    history[i].left == Sequential(history, i + 1)
  }

  // ---------------------------------------------------------------- the invariant

  /** What a waiting thread saw is not above the counter, and a thread only tries to advance upwards. */
  predicate PcOk(pc: Pc, counter: u64) {
    && (pc.AtLoad? ==> pc.op != Tick)
    && (pc.AtSwap? ==>
          pc.op != Tick && pc.seen <= counter && (pc.op.AdvanceTo? ==> pc.seen < pc.op.target))
  }

  ghost predicate Inv(s: Sys) {
    && (forall t | t in s.threads :: PcOk(s.threads[t], s.counter))
    && s.counter == Sequential(s.history, |s.history|)
    && Atomic(s.history)
  }

  /** The step moves the counter past the largest value. */
  predicate Wraps(s: Sys, step: Step) {
    var pc := PcOf(s, step.t);
    match step
    case DoTick(_) => pc == Idle && s.counter + 1 == U64_SIZE
    case Swap(_) => pc.AtSwap? && s.counter == pc.seen && pc.op.Merge? && Max(pc.seen, pc.op.other) + 1 == U64_SIZE
    case _ => false
  }

  lemma {:induction false} SequentialOfPrefix(history: seq<Done>, longer: seq<Done>, n: nat)
    requires n <= |history| && history <= longer
    ensures Sequential(longer, n) == Sequential(history, n)
  {
    if n > 0 {
      SequentialOfPrefix(history, longer, n - 1);
      assert longer[n - 1] == history[n - 1];
    }
  }

  /** An operation that leaves the value of its effect extends an atomic history. */
  lemma FinishKeepsHistory(s: Sys, t: ThreadId, op: Op, left: u64)
    requires Inv(s) && left == Effect(op, s.counter)
    ensures var f := Finish(s, t, op, left);
            f.counter == Sequential(f.history, |f.history|) && Atomic(f.history)
  {
    var longer := s.history + [Done(t, op, left)];
    var n := |s.history|;
    SequentialOfPrefix(s.history, longer, n);
    forall i | 0 <= i < |longer|
      ensures AtomicAt(longer, i)
    {
      if i < n {
        assert AtomicAt(s.history, i) && longer[i] == s.history[i];
        SequentialOfPrefix(s.history, longer, i + 1);
      }
    }
  }

  /** Threads that waited still wait correctly when the counter goes up. */
  lemma FinishKeepsThreads(s: Sys, t: ThreadId, op: Op, left: u64)
    requires Inv(s) && s.counter <= left
    ensures var f := Finish(s, t, op, left); forall u | u in f.threads :: PcOk(f.threads[u], f.counter)
  {
    var f := Finish(s, t, op, left);
    forall u | u in f.threads
      ensures PcOk(f.threads[u], f.counter)
    {
      if u != t {
        assert PcOk(s.threads[u], s.counter);
      }
    }
  }

  /** What a finishing step leaves is the effect of its operation on the counter as it stands. */
  lemma FinishesWithEffect(s: Sys, step: Step)
    requires Inv(s) && !Wraps(s, step)
    ensures var pc := PcOf(s, step.t);
            && (step.Load? && pc.AtLoad? && pc.op.AdvanceTo? && s.counter >= pc.op.target ==>
                  s.counter == Effect(pc.op, s.counter))
            && (step.Swap? && pc.AtSwap? && s.counter == pc.seen ==>
                  Wanted(pc.op, pc.seen) == Effect(pc.op, s.counter))
            && (step.DoTick? && pc == Idle ==> Wanted(Tick, s.counter) == Effect(Tick, s.counter))
  {
    if step.t in s.threads {
      assert PcOk(s.threads[step.t], s.counter);
    }
  }

  lemma NextKeepsInv(s: Sys, step: Step)
    requires Inv(s) && !Wraps(s, step)
    ensures Inv(Next(s, step)) && s.counter <= Next(s, step).counter
  {
    FinishesWithEffect(s, step);
    var n := Next(s, step);
    if n.history != s.history {
      var d := n.history[|s.history|];
      FinishKeepsHistory(s, d.thread, d.op, d.left);
      FinishKeepsThreads(s, d.thread, d.op, d.left);
    } else {
      ThreadsOnlyMove(s, step);
    }
  }

  /** A step that finishes nothing moves one thread and leaves the counter alone. */
  lemma ThreadsOnlyMove(s: Sys, step: Step)
    requires Inv(s) && Next(s, step).history == s.history
    ensures Next(s, step).counter == s.counter
    ensures forall u | u in Next(s, step).threads :: PcOk(Next(s, step).threads[u], s.counter)
  {
    var n := Next(s, step);
    assert |n.history| == |s.history|;
    forall u | u in n.threads
      ensures PcOk(n.threads[u], s.counter)
    {
      if u in s.threads {
        assert PcOk(s.threads[u], s.counter);
      }
    }
  }

  // ---------------------------------------------------------------- every interleaving

  predicate NeverWraps(steps: seq<Step>) {
    forall i | 0 <= i < |steps| :: !Wraps(Run(START, steps[..i]), steps[i])
  }

  lemma NeverWrapsPrefix(steps: seq<Step>, n: nat)
    requires NeverWraps(steps) && n <= |steps|
    ensures NeverWraps(steps[..n])
  {
    forall i | 0 <= i < n
      ensures !Wraps(Run(START, steps[..n][..i]), steps[..n][i])
    {
      assert steps[..n][..i] == steps[..i];
    }
  }

  /** Linearizability: under any interleaving the counter, and the value every operation left, are those of
      performing the operations one at a time in the order they took effect. */
  lemma {:induction false} EveryInterleaving(steps: seq<Step>)
    requires NeverWraps(steps)
    ensures Inv(Run(START, steps))
  {
    if steps != [] {
      var n := |steps| - 1;
      NeverWrapsPrefix(steps, n);
      EveryInterleaving(steps[..n]);
      NextKeepsInv(Run(START, steps[..n]), steps[n]);
    }
  }

  /** The counter never goes down. */
  lemma {:induction false} CounterNeverDecreases(steps: seq<Step>, i: nat)
    requires NeverWraps(steps) && i <= |steps|
    ensures Run(START, steps[..i]).counter <= Run(START, steps).counter
    decreases |steps|
  {
    if i == |steps| {
      assert steps[..i] == steps;
    } else {
      var n := |steps| - 1;
      NeverWrapsPrefix(steps, n);
      assert steps[..n][..i] == steps[..i];
      CounterNeverDecreases(steps[..n], i);
      EveryInterleaving(steps[..n]);
      NextKeepsInv(Run(START, steps[..n]), steps[n]);
    }
  }

  /** Without the hypothesis it does: a step lowers the counter exactly when it wraps a counter above zero. */
  lemma DropsIffWraps(s: Sys, step: Step)
    requires Inv(s)
    ensures Next(s, step).counter < s.counter <==> Wraps(s, step) && s.counter > 0
  {
    if !Wraps(s, step) {
      NextKeepsInv(s, step);
    } else {
      if step.t in s.threads {
        assert PcOk(s.threads[step.t], s.counter);
      }
      assert U64_SIZE % U64_SIZE == 0;
    }
  }

  lemma {:induction false} SequentialAscends(history: seq<Done>, i: nat, j: nat)
    requires i <= j <= |history|
    ensures Sequential(history, i) <= Sequential(history, j)
  {
    if i < j {
      SequentialAscends(history, i, j - 1);
    }
  }

  /** No two ticks return the same value, and later ticks return larger ones. */
  lemma {:induction false} TicksAreDistinct(steps: seq<Step>, i: nat, j: nat)
    requires NeverWraps(steps)
    requires var h := Run(START, steps).history; i < j < |h| && h[i].op == Tick && h[j].op == Tick
    ensures var h := Run(START, steps).history; h[i].left < h[j].left
  {
    EveryInterleaving(steps);
    TicksAscend(Run(START, steps).history, i, j);
  }

  lemma TicksAscend(h: seq<Done>, i: nat, j: nat)
    requires Atomic(h) && i < j < |h| && h[j].op == Tick
    ensures h[i].left < h[j].left
  {
    assert AtomicAt(h, i) && AtomicAt(h, j);
    SequentialAscends(h, i + 1, j);
  }

  /** What an operation left, in terms of what the one that took effect just before it left: a tick one more, a
      merge one more than the larger of that and what it merged, an advance the larger of that and its target. */
  lemma {:induction false} MergesAndAdvances(steps: seq<Step>, i: nat)
    requires NeverWraps(steps) && i < |Run(START, steps).history|
    ensures var h := Run(START, steps).history;
            var before := if i == 0 then 0 else h[i - 1].left;
            match h[i].op
            case Tick => h[i].left == before + 1
            case Merge(other) =>
              h[i].left > before && h[i].left > other && h[i].left in {before + 1, other + 1}
            case AdvanceTo(target) => h[i].left >= before && h[i].left >= target && h[i].left in {before, target}
  {
    EveryInterleaving(steps);
    var h := Run(START, steps).history;
    assert AtomicAt(h, i);
    if i > 0 {
      assert AtomicAt(h, i - 1);
    }
  }

  // ---------------------------------------------------------------- lock freedom

  predicate NotBy(steps: seq<Step>, t: ThreadId) {
    forall i | 0 <= i < |steps| :: steps[i].t != t
  }

  /** While a thread does not move, its position stays; and a counter that changed means that some other
      thread's operation took effect meanwhile. */
  lemma {:induction false} ChangeMeansProgress(s: Sys, steps: seq<Step>, t: ThreadId)
    requires NotBy(steps, t)
    ensures PcOf(Run(s, steps), t) == PcOf(s, t)
    ensures |Run(s, steps).history| >= |s.history|
    ensures Run(s, steps).counter != s.counter ==> |Run(s, steps).history| > |s.history|
  {
    if steps != [] {
      var n := |steps| - 1;
      assert NotBy(steps[..n], t);
      ChangeMeansProgress(s, steps[..n], t);
      assert steps[n].t != t;
    }
  }

  /** Lock freedom: a compare-and-swap fails only if another operation took effect since the load. */
  lemma FailedSwapMeansProgress(s: Sys, t: ThreadId, between: seq<Step>)
    requires PcOf(s, t).AtLoad? && PcOf(Next(s, Load(t)), t).AtSwap? && NotBy(between, t)
    ensures var loaded := Next(s, Load(t));
            var late := Run(loaded, between);
            PcOf(Next(late, Swap(t)), t) != Idle ==> |late.history| > |loaded.history|
  {
    ChangeMeansProgress(Next(s, Load(t)), between, t);
  }

  // ---------------------------------------------------------------- every call takes effect once

  /** The operations that thread `t` began in the first `n` steps, in order. A call or a tick of a thread that
      is still busy is none. */
  function Begun(steps: seq<Step>, t: ThreadId, n: nat): seq<Op>
    requires n <= |steps|
  {
    if n == 0 then []
    else Begun(steps, t, n - 1)
         + if steps[n - 1].t == t && PcOf(Run(START, steps[..n - 1]), t) == Idle then Asked(steps[n - 1]) else []
  }

  /** What a step asks for. */
  function Asked(step: Step): seq<Op> {
    match step
    case DoTick(_) => [Tick]
    case Call(_, op) => if op == Tick then [] else [op]
    case _ => []
  }

  /** The operations of thread `t` that took effect, in the order in which they did. */
  function TookEffect(history: seq<Done>, t: ThreadId): seq<Op> {
    if history == [] then []
    else
      var front, last := TookEffect(history[..|history| - 1], t), history[|history| - 1];
      if last.thread == t then front + [last.op] else front
  }

  /** The operation that a thread is in the middle of. */
  function Pending(pc: Pc): seq<Op> {
    match pc
    case Idle => []
    case AtLoad(op) => [op]
    case AtSwap(op, _) => [op]
  }

  lemma EffectOfOne(history: seq<Done>, d: Done, t: ThreadId)
    ensures TookEffect(history + [d], t) == TookEffect(history, t) + if d.thread == t then [d.op] else []
  {
    assert (history + [d])[..|history|] == history;
  }

  /** Where thread `t` stands: what has taken effect of it and what is pending. */
  function Standing(s: Sys, t: ThreadId): seq<Op> {
    TookEffect(s.history, t) + Pending(PcOf(s, t))
  }

  lemma FinishMovesOn(s: Sys, t: ThreadId, u: ThreadId, op: Op, left: u64)
    ensures Standing(Finish(s, t, op, left), u)
         == if u == t then TookEffect(s.history, u) + [op] else Standing(s, u)
  {
    EffectOfOne(s.history, Done(t, op, left), u);
  }

  /** One step moves one operation of its own thread on: begun, pending, or taken effect. */
  lemma StepMovesOn(s: Sys, step: Step, t: ThreadId)
    ensures Standing(Next(s, step), t)
         == Standing(s, t) + if step.t == t && PcOf(s, t) == Idle then Asked(step) else []
  {
    var u, pc := step.t, PcOf(s, step.t);
    assert TookEffect(s.history, t) + [] == TookEffect(s.history, t) && Standing(s, t) + [] == Standing(s, t);
    match step {
      case DoTick(_) =>
        FinishMovesOn(s, u, t, Tick, Wanted(Tick, s.counter));
      case Call(_, _) =>
      case Load(_) =>
        if pc.AtLoad? {
          FinishMovesOn(s, u, t, pc.op, s.counter);
        }
      case Swap(_) =>
        if pc.AtSwap? {
          FinishMovesOn(s, u, t, pc.op, Wanted(pc.op, pc.seen));
        }
    }
  }

  /** Under any interleaving, what a thread began is what took effect of it, in the same order and with the
      same arguments, and after it at most the one operation it is in the middle of. */
  lemma {:induction false} EveryCallTakesEffectOnce(steps: seq<Step>, t: ThreadId)
    ensures Begun(steps, t, |steps|) == Standing(Run(START, steps), t)
  {
    if steps != [] {
      var n := |steps| - 1;
      EveryCallTakesEffectOnce(steps[..n], t);
      BegunOfPrefix(steps, t, n);
      assert steps[..n][..n] == steps[..n];
      StepMovesOn(Run(START, steps[..n]), steps[n], t);
    }
  }

  lemma {:induction false} BegunOfPrefix(steps: seq<Step>, t: ThreadId, n: nat)
    requires n < |steps|
    ensures Begun(steps[..|steps| - 1], t, n) == Begun(steps, t, n)
  {
    if n > 0 {
      BegunOfPrefix(steps, t, n - 1);
      assert steps[..|steps| - 1][..n - 1] == steps[..n - 1];
    }
  }
}
