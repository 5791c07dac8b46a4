/** What every executor log looks like, and how an execution resumes. */
module ExecutorLaws {
  import opened Base
  import opened Json
  import opened Facts
  import opened Executor

  // ---------------------------------------------------------------- resumability

  /** After the state transition at event `k`, what happens is what happens from its payload and queue with
      the remaining budget. */
  lemma {:induction false} EventsResume(m: Machine, queue: seq<JsonValue>, payload: JsonValue, budget: nat, k: nat)
    requires k < |Events(m, queue, payload, budget)| && Events(m, queue, payload, budget)[k].Moved?
    ensures k < budget
    ensures var e := Events(m, queue, payload, budget)[k];
            Events(m, queue, payload, budget)[k + 1..] == Events(m, e.queue, e.payload, budget - k - 1)
    decreases budget
  {
    var events := Events(m, queue, payload, budget);
    var r := m.step(queue[0], payload, queue[1..]);
    assert GoesOn(r);
    if r.value.NewState? {
      if k > 0 {
        EventsResume(m, r.value.queue, r.value.payload, budget - 1, k - 1);
      }
      DropHead(events[0], Events(m, r.value.queue, r.value.payload, budget - 1), k);
    } else {
      EventsResume(m, queue[1..], payload, budget - 1, k - 1);
      DropHead(events[0], Events(m, queue[1..], payload, budget - 1), k);
    }
  }

  lemma {:induction false} CauseSuffix(events: seq<Event>, id: nat, cause: nat, k: nat, i: nat)
    requires cause < id && k < i <= |events| && events[k].Moved?
    ensures CauseAt(events, id, cause, i) == CauseAt(events[k + 1..], id + k + 1, id + k, i - k - 1)
  {
    if i > k + 1 {
      CauseSuffix(events, id, cause, k, i - 1);
    }
  }

  lemma FactSuffix(m: Machine, events: seq<Event>, id: nat, cause: nat, steps: nat, k: nat, i: nat)
    requires k < i < |events| && id + i < U64_SIZE && cause < id && events[k].Moved?
    ensures FactOf(m, events, id, cause, steps, i)
         == FactOf(m, events[k + 1..], id + k + 1, id + k, steps + k + 1, i - k - 1)
  {
    CauseSuffix(events, id, cause, k, i);
  }

  lemma LabelSuffix(m: Machine, events: seq<Event>, id: nat, cause: nat, steps: nat, k: nat)
    requires id + |events| <= U64_SIZE && cause < id && k < |events| && events[k].Moved?
    ensures LabelAll(m, events, id, cause, steps)[k + 1..]
         == LabelAll(m, events[k + 1..], id + k + 1, id + k, steps + k + 1)
  {
    forall i | k < i < |events|
      ensures FactOf(m, events, id, cause, steps, i)
           == FactOf(m, events[k + 1..], id + k + 1, id + k, steps + k + 1, i - k - 1)
    {
      FactSuffix(m, events, id, cause, steps, k, i);
    }
  }

  lemma DropHead<T>(head: T, s: seq<T>, k: nat)
    requires k <= |s|
    ensures ([head] + s)[k + 1..] == s[k..]
  {
  }

  /** The labelled facts of a run resumed after the state transition `f` at log index `k`. */
  function Resumed(m: Machine, f: Fact, maxSteps: nat, k: nat): seq<Fact>
    requires maxSteps + 4 < U64_SIZE && k <= maxSteps && f.StateTransition?
  {
    EventsAreFew(m, f.newQueue, f.newPayload, maxSteps - k);
    LabelAll(m, Events(m, f.newQueue, f.newPayload, maxSteps - k), k + 2, k + 1, k)
  }

  /** The facts that follow the state transition at log index `k`, up to the closing one, are the labelling
      of the events of a fresh run from its payload and queue with budget `maxSteps - k`, with ids from
      `k + 2`, causes from `k + 1` and step numbers from `k`. */
  lemma Resumes(m: Machine, payload: JsonValue, instruction: JsonValue, maxSteps: nat, k: nat)
    requires maxSteps + 4 < U64_SIZE
    requires k < |Body(m, payload, instruction, maxSteps)| && Body(m, payload, instruction, maxSteps)[k].StateTransition?
    ensures 0 < k <= maxSteps
    ensures Body(m, payload, instruction, maxSteps)[k + 1..]
         == Resumed(m, Body(m, payload, instruction, maxSteps)[k], maxSteps, k)
  {
    var events := Events(m, [instruction], payload, maxSteps);
    EventsAreFew(m, [instruction], payload, maxSteps);
    RecordedResumes(m, instruction, events, k);
    EventsResume(m, [instruction], payload, maxSteps, k - 1);
  }

  lemma RecordedResumes(m: Machine, instruction: JsonValue, events: seq<Event>, k: nat)
    requires |events| + 2 <= U64_SIZE && k <= |events| && Recorded(m, instruction, events)[k].StateTransition?
    ensures 0 < k && events[k - 1].Moved?
    ensures var f := Recorded(m, instruction, events)[k];
            f.newPayload == events[k - 1].payload && f.newQueue == events[k - 1].queue
    ensures Recorded(m, instruction, events)[k + 1..] == LabelAll(m, events[k..], k + 2, k + 1, k)
  {
    assert Recorded(m, instruction, events)[k] == FactOf(m, events, 2, 1, 0, k - 1);
    LabelSuffix(m, events, 2, 1, 0, k - 1);
    DropHead(Command(1, instruction), LabelAll(m, events, 2, 1, 0), k);
  }

  /** `f` is `g` with ids and causes moved up by `d`; the texts of errors may differ in a step number. */
  predicate ShiftedBy(f: Fact, g: Fact, d: nat) {
    && f.id == g.id + d
    && match (f, g)
       case (StateTransition(_, c, p, q), StateTransition(_, c2, p2, q2)) => c == c2 + d && p == p2 && q == q2
       case (IoRequest(_, c, t, p), IoRequest(_, c2, t2, p2)) => c == c2 + d && t == t2 && p == p2
       case (Violation(_, c, x, r, i), Violation(_, c2, x2, r2, i2)) => c == c2 + d && x == x2 && r == r2 && i == i2
       case (Error(_, _), Error(_, _)) => true
       case _ => false
  }

  /** The two messages that quote a step number. */
  predicate QuotesStep(e: Event) {
    e.Failed? && (e.fault.StepsExceeded? || e.fault.TcbError?)
  }

  predicate Restarted(f: Fact, g: Fact, e: Event, d: nat) {
    ShiftedBy(f, g, d) && (f.Error? && !QuotesStep(e) ==> f.message == g.message)
  }

  lemma LabelShifts(m: Machine, e: Event, id: nat, cause: nat, steps: nat, d: nat)
    requires id + d < U64_SIZE && cause < id
    ensures Restarted(Label(m, e, id + d, cause + d, steps + d), Label(m, e, id, cause, steps), e, d)
  {
  }

  /** The same events labelled from a later id and step: everything moves up by the same distance, and only
      the two messages that quote a step number change. */
  lemma LabelsShift(m: Machine, events: seq<Event>, id: nat, cause: nat, steps: nat, d: nat, i: nat)
    requires id + d + |events| <= U64_SIZE && cause < id && i < |events|
    ensures Restarted(FactOf(m, events, id + d, cause + d, steps + d, i), FactOf(m, events, id, cause, steps, i), events[i], d)
  {
    CausesShift(events, id, cause, d, i);
    LabelShifts(m, events[i], id + i, CauseAt(events, id, cause, i), steps + i, d);
  }

  lemma {:induction false} CausesShift(events: seq<Event>, id: nat, cause: nat, d: nat, i: nat)
    requires i <= |events| && cause < id
    ensures CauseAt(events, id + d, cause + d, i) == CauseAt(events, id, cause, i) + d
  {
    if i > 0 {
      CausesShift(events, id, cause, d, i - 1);
    }
  }

  /** Resuming after log index `k` records what a fresh loop over the same payload and queue records, with
      ids and causes moved up by `k`. */
  lemma {:induction false} ResumedIsShifted(m: Machine, f: Fact, maxSteps: nat, k: nat, i: nat)
    requires maxSteps + 4 < U64_SIZE && k <= maxSteps && f.StateTransition?
    requires i < |Events(m, f.newQueue, f.newPayload, maxSteps - k)| <= maxSteps - k + 1
    ensures var events := Events(m, f.newQueue, f.newPayload, maxSteps - k);
            Restarted(Resumed(m, f, maxSteps, k)[i], LabelAll(m, events, 2, 1, 0)[i], events[i], k)
  {
    LabelsShift(m, Events(m, f.newQueue, f.newPayload, maxSteps - k), 2, 1, 0, k, i);
  }

  // ---------------------------------------------------------------- the shape of every log

  /** The position of the last Command or StateTransition before `i`. */
  function Mover(facts: seq<Fact>, i: nat): (j: nat)
    requires 0 < i <= |facts| && facts[0].Command?
    ensures j < i && (facts[j].Command? || facts[j].StateTransition?)
  {
    if i == 1 || facts[i - 1].Command? || facts[i - 1].StateTransition? then i - 1 else Mover(facts, i - 1)
  }

  function CauseOf(f: Fact): Option<FactId> {
    if f.Violation? then Some(f.cause) else ExtractCause(f)
  }

  /** What is true of the fact at each position of a log. */
  predicate Fits(facts: seq<Fact>, i: nat)
    requires i < |facts| && facts[0].Command?
  {
    var f := facts[i];
    && f.id == i + 1
    && (f.Command? <==> i == 0)
    && (f.Stable? <==> i == |facts| - 1)
    && (f.Error? ==> i == |facts| - 2)
    && (CauseOf(f).Some? ==> i > 0 && CauseOf(f).value == Mover(facts, i) + 1)
  }

  predicate WellFormed(facts: seq<Fact>, maxSteps: nat) {
    && 2 <= |facts| <= maxSteps + 3 && |facts| < U64_SIZE && Transitions(facts) < U64_SIZE && facts[0].Command?
    && (forall i | 0 <= i < |facts| :: Fits(facts, i))
    && facts[|facts| - 1] == Stable(|facts|, Transitions(facts))
  }

  /** A failure is the last event, if there is one, and events record nothing else than the five kinds. */
  lemma {:induction false} FailureIsLast(m: Machine, queue: seq<JsonValue>, payload: JsonValue, budget: nat, i: nat)
    requires i < |Events(m, queue, payload, budget)| && Events(m, queue, payload, budget)[i].Failed?
    ensures i == |Events(m, queue, payload, budget)| - 1
    decreases budget
  {
    if budget > 0 {
      var r := m.step(queue[0], payload, queue[1..]);
      if GoesOn(r) {
        if r.value.NewState? {
          FailureIsLast(m, r.value.queue, r.value.payload, budget - 1, i - 1);
        } else {
          FailureIsLast(m, queue[1..], payload, budget - 1, i - 1);
        }
      }
    }
  }

  lemma {:induction false} CauseIsMover(m: Machine, instruction: JsonValue, events: seq<Event>, i: nat)
    requires |events| + 2 <= U64_SIZE && 0 < i <= |events| + 1
    ensures CauseAt(events, 2, 1, i - 1) == Mover(Recorded(m, instruction, events), i) + 1
  {
    if i > 1 {
      CauseIsMover(m, instruction, events, i - 1);
      assert Recorded(m, instruction, events)[i - 1] == FactOf(m, events, 2, 1, 0, i - 2);
    }
  }

  lemma {:induction false} MoverOfPrefix(facts: seq<Fact>, longer: seq<Fact>, i: nat)
    requires 0 < i <= |facts| && facts <= longer && facts[0].Command?
    ensures Mover(longer, i) == Mover(facts, i)
  {
    assert longer[i - 1] == facts[i - 1];
    if i > 1 {
      MoverOfPrefix(facts, longer, i - 1);
    }
  }

  /** Every log: ids from one, Command first and only there, Stable last and only there, at most one Error
      and only next to last, at most `maxSteps + 3` facts, the version counting the state transitions, and
      every cause the command or state transition right before. */
  lemma LogIsWellFormed(m: Machine, payload: JsonValue, instruction: JsonValue, maxSteps: nat)
    requires maxSteps + 4 < U64_SIZE
    ensures WellFormed(Log(m, payload, instruction, maxSteps), maxSteps)
  {
    var body, log := Body(m, payload, instruction, maxSteps), Log(m, payload, instruction, maxSteps);
    var events := Events(m, [instruction], payload, maxSteps);
    EventsAreFew(m, [instruction], payload, maxSteps);
    forall i | 0 <= i < |events| && events[i].Failed?
      ensures i == |events| - 1
    {
      FailureIsLast(m, [instruction], payload, maxSteps, i);
    }
    forall i | 0 <= i < |log|
      ensures Fits(log, i)
    {
      if 0 < i < |body| {
        RecordedAt(m, instruction, events, i);
        MoverOfPrefix(body, log, i);
      }
    }
    FactSnoc(body, log[|body|], payload);
    TransitionsAreFew(body);
  }

  predicate FailsLast(events: seq<Event>) {
    forall i | 0 <= i < |events| && events[i].Failed? :: i == |events| - 1
  }

  lemma RecordedAt(m: Machine, instruction: JsonValue, events: seq<Event>, i: nat)
    requires |events| + 2 <= U64_SIZE && 0 < i <= |events| && FailsLast(events)
    ensures var body := Recorded(m, instruction, events);
            && body[i].id == i + 1 && !body[i].Command? && !body[i].Stable? && (body[i].Error? ==> i == |events|)
            && (CauseOf(body[i]).Some? ==> CauseOf(body[i]).value == Mover(body, i) + 1)
  {
    assert Recorded(m, instruction, events)[i] == FactOf(m, events, 2, 1, 0, i - 1);
    CauseIsMover(m, instruction, events, i);
  }
}
