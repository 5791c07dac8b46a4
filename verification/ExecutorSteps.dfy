/** Every log of the executor, explained fact by fact by the machine's steps. */
module ExecutorSteps {
  import opened Base
  import opened Json
  import opened Facts
  import opened Executor
  import opened ExecutorLaws

  // ---------------------------------------------------------------- the loop's state, read off the log

  /** The loop comes round once more after the facts before `i`: the last of them ends no run. */
  predicate ComesRound(log: seq<Fact>, i: nat) {
    0 < i < |log| && !log[i - 1].Error? && !log[i - 1].IoRequest?
  }

  /** Fact `j` is what last set payload and queue before `i`: since then, instructions were only blocked. */
  predicate LastSetBy(log: seq<Fact>, j: nat, i: nat) {
    && j < i <= |log| && (if j == 0 then log[0].Command? else log[j].StateTransition?)
    && forall k | j < k < i :: log[k].Violation?
  }

  function PayloadSetBy(f: Fact, initial: JsonValue): JsonValue {
    if f.StateTransition? then f.newPayload else initial
  }

  function QueueSetBy(f: Fact, instruction: JsonValue): seq<JsonValue> {
    if f.StateTransition? then f.newQueue else [instruction]
  }

  // ---------------------------------------------------------------- what the machine dictates

  /** The log stops at `i` with an error of this text. */
  predicate FailsAt(log: seq<Fact>, i: nat, text: string) {
    i + 2 == |log| && log[i].Error? && log[i].id == i + 1 && log[i].message == text
  }

  /** Fact `i` is what one step of the machine from this payload and queue dictates, caused by the fact at
      `j`; the log goes on after it exactly when the step lets it. */
  predicate StepDictates(m: Machine, log: seq<Fact>, i: nat, j: nat, payload: JsonValue, queue: seq<JsonValue>)
    requires i < |log| && queue != []
  {
    match m.step(queue[0], payload, queue[1..])
    case Ok(NewState(p, q)) =>
      i + 1 < |log| && log[i].StateTransition? && log[i] == StateTransition(log[i].id, log[i].cause, p, q)
      && log[i].id == i + 1 && log[i].cause == j + 1
    case Ok(Halted(index, reason)) =>
      i + 1 < |log| && log[i].Violation? && log[i] == Violation(log[i].id, log[i].cause, index, reason, queue[0])
      && log[i].id == i + 1 && log[i].cause == j + 1
    case Ok(IoRequired(ioType, params)) =>
      log[i].IoRequest? && log[i] == IoRequest(log[i].id, log[i].cause, ioType, params)
      && log[i].id == i + 1 && log[i].cause == j + 1
      && i + 1 < |log| && FailsAt(log, i + 1, "no I/O handler for io_type=" + ioType)
    case Ok(Ignored(kind, reason)) =>
      FailsAt(log, i, "Instruction ignored by TCB: type=" + kind + ", reason=" + reason
                      + ", instruction=" + m.debug(queue[0]))
    case Err(text) => FailsAt(log, i, "TCB error at step " + m.number(i) + ": " + text)
  }

  /** The loop's three cases: nothing left to do, no budget left, or one more step. Every fact after the
      command records one step, so `i - 1` steps have been taken. */
  predicate LoopDictates(m: Machine, log: seq<Fact>, i: nat, j: nat,
                         payload: JsonValue, queue: seq<JsonValue>, maxSteps: nat)
    requires 0 < i < |log|
  {
    && i - 1 <= maxSteps && (i + 1 == |log| <==> queue == [])
    && (queue != [] ==>
          if i - 1 == maxSteps then FailsAt(log, i, "max_steps exceeded: " + m.number(maxSteps))
          else StepDictates(m, log, i, j, payload, queue))
  }

  // ---------------------------------------------------------------- proof

  predicate GoingOn(e: Event) {
    e.Moved? || e.Blocked?
  }

  /** An event after which the loop goes on, and the events after it. */
  lemma OneOn(m: Machine, q: seq<JsonValue>, p: JsonValue, budget: nat, events: seq<Event>)
    requires Ahead(m, q, p, budget, events) && events != [] && GoingOn(events[0])
    ensures budget > 0 && q != []
    ensures events[0].Moved? ==> Ahead(m, events[0].queue, events[0].payload, budget - 1, events[1..])
    ensures events[0].Blocked? ==> Ahead(m, q[1..], p, budget - 1, events[1..])
  {
  }

  /** Before fact `i` the events still to come are those of the state that fact `j` and the blocked
      instructions since leave. */
  ghost predicate Stands(m: Machine, payload: JsonValue, instruction: JsonValue, maxSteps: nat,
                         events: seq<Event>, facts: seq<Fact>, i: nat, j: nat) {
    && |events| + 2 <= U64_SIZE && 0 < i <= |events| + 1 == |facts| && i - 1 <= maxSteps
    && LastSetBy(facts, j, i) && CauseAt(events, 2, 1, i - 1) == j + 1
    && i - j - 1 <= |QueueSetBy(facts[j], instruction)|
    && Ahead(m, QueueSetBy(facts[j], instruction)[i - j - 1..], PayloadSetBy(facts[j], payload),
             maxSteps - (i - 1), events[i - 1..])
  }

  ghost predicate Ahead(m: Machine, q: seq<JsonValue>, p: JsonValue, budget: nat, events: seq<Event>) {
    events == Events(m, q, p, budget)
  }

  /** Fact `i` records its event, and the loop goes on after it. */
  predicate GoesOnAt(m: Machine, events: seq<Event>, facts: seq<Fact>, i: nat) {
    && |events| + 2 <= U64_SIZE && 0 < i < |facts| == |events| + 1
    && GoingOn(events[i - 1]) && facts[i] == FactOf(m, events, 2, 1, 0, i - 1)
  }

  lemma {:induction false} Walk(m: Machine, payload: JsonValue, instruction: JsonValue, maxSteps: nat,
                                events: seq<Event>, facts: seq<Fact>, i: nat) returns (j: nat)
    requires Stands(m, payload, instruction, maxSteps, events, facts, 1, 0)
    requires 0 < i <= |facts| && forall k | 1 <= k < i :: GoesOnAt(m, events, facts, k)
    ensures Stands(m, payload, instruction, maxSteps, events, facts, i, j)
  {
    if i == 1 {
      j := 0;
    } else {
      var last := Walk(m, payload, instruction, maxSteps, events, facts, i - 1);
      assert GoesOnAt(m, events, facts, i - 1);
      j := WalkOn(m, payload, instruction, maxSteps, events, facts, i - 1, last);
    }
  }

  lemma WalkOn(m: Machine, payload: JsonValue, instruction: JsonValue, maxSteps: nat,
               events: seq<Event>, facts: seq<Fact>, i: nat, j: nat) returns (next: nat)
    requires Stands(m, payload, instruction, maxSteps, events, facts, i, j)
    requires GoesOnAt(m, events, facts, i)
    ensures Stands(m, payload, instruction, maxSteps, events, facts, i + 1, next)
  {
    next := if events[i - 1].Moved? then i else j;
    var q, p := QueueSetBy(facts[j], instruction)[i - j - 1..], PayloadSetBy(facts[j], payload);
    var rest := events[i - 1..];
    OneOn(m, q, p, maxSteps - (i - 1), rest);
    assert rest[0] == events[i - 1] && rest[1..] == events[i..];
    CauseOn(events, i, j);
    if rest[0].Moved? {
      assert facts[i].StateTransition? && facts[i].newQueue == rest[0].queue && facts[i].newPayload == rest[0].payload;
      assert QueueSetBy(facts[i], instruction)[0..] == rest[0].queue;
    } else {
      assert facts[i].Violation?;
      assert QueueSetBy(facts[j], instruction)[i - j..] == q[1..];
    }
  }

  lemma CauseOn(events: seq<Event>, i: nat, j: nat)
    requires 0 < i <= |events| && CauseAt(events, 2, 1, i - 1) == j + 1
    ensures CauseAt(events, 2, 1, i) == (if events[i - 1].Moved? then i else j) + 1
  {
  }

  /** Where the loop comes round, it has always gone on before. */
  lemma {:induction false} AlwaysGoingOn(m: Machine, queue: seq<JsonValue>, payload: JsonValue, budget: nat, i: nat)
    requires i < |Events(m, queue, payload, budget)|
    requires !GoingOn(Events(m, queue, payload, budget)[i])
    ensures var events := Events(m, queue, payload, budget);
            i == |events| - 1 || (i == |events| - 2 && events[i].Asked? && events[i + 1].Failed?)
    decreases budget
  {
    if budget > 0 {
      var r := m.step(queue[0], payload, queue[1..]);
      if GoesOn(r) {
        if r.value.NewState? {
          AlwaysGoingOn(m, r.value.queue, r.value.payload, budget - 1, i - 1);
        } else {
          AlwaysGoingOn(m, queue[1..], payload, budget - 1, i - 1);
        }
      }
    }
  }

  /** The first event of a state, and whether others follow. */
  lemma FirstEvent(m: Machine, q: seq<JsonValue>, p: JsonValue, budget: nat, events: seq<Event>)
    requires Ahead(m, q, p, budget, events)
    ensures q == [] ==> events == []
    ensures q != [] && budget == 0 ==> events == [Failed(StepsExceeded)]
    ensures q != [] && budget > 0 ==>
      match m.step(q[0], p, q[1..])
      case Ok(NewState(p2, q2)) => |events| >= 1 && events[0] == Moved(p2, q2)
      case Ok(Halted(index, reason)) => |events| >= 1 && events[0] == Blocked(index, reason, q[0])
      case Ok(IoRequired(ioType, params)) => events == [Asked(ioType, params), Failed(NoHandler(ioType))]
      case Ok(Ignored(kind, reason)) => events == [Failed(NotMatched(kind, reason, q[0]))]
      case Err(text) => events == [Failed(TcbError(text))]
  {
  }

  /** Up to where the loop comes round, every event was one after which it goes on. */
  lemma BeforeRound(m: Machine, instruction: JsonValue, payload: JsonValue, maxSteps: nat,
                    events: seq<Event>, log: seq<Fact>, i: nat, k: nat)
    requires Ahead(m, [instruction], payload, maxSteps, events) && |events| + 2 <= U64_SIZE
    requires |log| == |events| + 2 && Recorded(m, instruction, events) == log[..|events| + 1]
    requires ComesRound(log, i) && 1 <= k < i
    ensures GoesOnAt(m, events, log[..|events| + 1], k)
  {
    assert log[k] == FactOf(m, events, 2, 1, 0, k - 1);
    if !GoingOn(events[k - 1]) {
      AlwaysGoingOn(m, [instruction], payload, maxSteps, k - 1);
    }
  }

  /** The fact at `i`, and the one after it if there is one, record the first two of the events to come. */
  predicate RecordsFrom(m: Machine, log: seq<Fact>, i: nat, j: nat, rest: seq<Event>) {
    && 0 < i && j < i && |log| == i + |rest| + 1 <= U64_SIZE
    && (rest != [] ==> log[i] == Label(m, rest[0], i + 1, j + 1, i - 1))
    && (|rest| > 1 && rest[1].Failed? ==> log[i + 1] == Error(i + 2, Message(m, rest[1].fault, i)))
  }

  lemma RecordedFrom(m: Machine, instruction: JsonValue, events: seq<Event>, log: seq<Fact>, i: nat, j: nat)
    requires 0 < i <= |events| + 1 && j < i && |log| == |events| + 2 <= U64_SIZE
    requires Recorded(m, instruction, events) == log[..|events| + 1] && CauseAt(events, 2, 1, i - 1) == j + 1
    ensures RecordsFrom(m, log, i, j, events[i - 1..])
  {
    if i <= |events| {
      RecordedAs(m, instruction, events, log, i);
      if i < |events| {
        RecordedAs(m, instruction, events, log, i + 1);
      }
    }
  }

  lemma RecordedAs(m: Machine, instruction: JsonValue, events: seq<Event>, log: seq<Fact>, k: nat)
    requires 0 < k <= |events| && |log| == |events| + 2 <= U64_SIZE
    requires Recorded(m, instruction, events) == log[..|events| + 1]
    ensures log[k] == Label(m, events[k - 1], k + 1, CauseAt(events, 2, 1, k - 1), k - 1)
  {
    assert log[k] == FactOf(m, events, 2, 1, 0, k - 1);
  }

  /** What the loop dictates at `i` is what the events still to come record there. */
  lemma RoundIsDictated(m: Machine, log: seq<Fact>, i: nat, j: nat, p: JsonValue, q: seq<JsonValue>,
                        maxSteps: nat, rest: seq<Event>)
    requires RecordsFrom(m, log, i, j, rest) && i - 1 <= maxSteps && Ahead(m, q, p, maxSteps - (i - 1), rest)
    ensures LoopDictates(m, log, i, j, p, q, maxSteps)
  {
    FirstEvent(m, q, p, maxSteps - (i - 1), rest);
  }

  lemma Begins(m: Machine, payload: JsonValue, instruction: JsonValue, maxSteps: nat,
               events: seq<Event>, facts: seq<Fact>)
    requires Ahead(m, [instruction], payload, maxSteps, events) && |events| + 2 <= U64_SIZE
    requires facts == Recorded(m, instruction, events)
    ensures Stands(m, payload, instruction, maxSteps, events, facts, 1, 0)
  {
    assert [instruction][0..] == [instruction] && events[0..] == events;
  }

  predicate Logs(m: Machine, instruction: JsonValue, events: seq<Event>, log: seq<Fact>) {
    |log| == |events| + 2 <= U64_SIZE && log[..|events| + 1] == Recorded(m, instruction, events)
  }

  lemma StandsAt(m: Machine, payload: JsonValue, instruction: JsonValue, maxSteps: nat,
                 events: seq<Event>, log: seq<Fact>, i: nat) returns (j: nat)
    requires Ahead(m, [instruction], payload, maxSteps, events)
    requires Logs(m, instruction, events, log) && ComesRound(log, i)
    ensures Stands(m, payload, instruction, maxSteps, events, log[..|events| + 1], i, j)
  {
    var facts := log[..|events| + 1];
    forall k | 1 <= k < i
      ensures GoesOnAt(m, events, facts, k)
    {
      BeforeRound(m, instruction, payload, maxSteps, events, log, i, k);
    }
    Begins(m, payload, instruction, maxSteps, events, facts);
    j := Walk(m, payload, instruction, maxSteps, events, facts, i);
  }

  /** Where fact `j` leaves the loop at `i`, said of the whole log. */
  lemma StandsInLog(m: Machine, payload: JsonValue, instruction: JsonValue, maxSteps: nat,
                    events: seq<Event>, log: seq<Fact>, i: nat, j: nat)
    requires |log| == |events| + 2
    requires Stands(m, payload, instruction, maxSteps, events, log[..|events| + 1], i, j)
    ensures LastSetBy(log, j, i) && i - 1 <= maxSteps && i <= |events| + 1 && CauseAt(events, 2, 1, i - 1) == j + 1
    ensures i - j - 1 <= |QueueSetBy(log[j], instruction)|
    ensures Ahead(m, QueueSetBy(log[j], instruction)[i - j - 1..], PayloadSetBy(log[j], payload),
                  maxSteps - (i - 1), events[i - 1..])
  {
    assert log[..|events| + 1][j] == log[j];
    forall k | j < k < i
      ensures log[k].Violation?
    {
      assert log[..|events| + 1][k] == log[k];
    }
  }

  /** Every log, explained by the machine. It opens with the command. Wherever the loop comes round, payload
      and queue are those of the last state transition, else the initial payload and the given instruction,
      less one instruction for each violation since; and the next fact is what the machine dictates from
      there. The log ends exactly where the queue is empty, the budget is spent or the step stops. */
  lemma LogIsDictated(m: Machine, payload: JsonValue, instruction: JsonValue, maxSteps: nat, i: nat) returns (j: nat)
    requires maxSteps + 4 < U64_SIZE && ComesRound(Log(m, payload, instruction, maxSteps), i)
    ensures var log := Log(m, payload, instruction, maxSteps);
            && log[0] == Command(1, instruction)
            && LastSetBy(log, j, i) && i - j - 1 <= |QueueSetBy(log[j], instruction)|
            && LoopDictates(m, log, i, j, PayloadSetBy(log[j], payload),
                            QueueSetBy(log[j], instruction)[i - j - 1..], maxSteps)
  {
    var events, log := Events(m, [instruction], payload, maxSteps), Log(m, payload, instruction, maxSteps);
    EventsAreFew(m, [instruction], payload, maxSteps);
    assert log[..|events| + 1] == Recorded(m, instruction, events);
    j := StandsAt(m, payload, instruction, maxSteps, events, log, i);
    StandsInLog(m, payload, instruction, maxSteps, events, log, i, j);
    RecordedFrom(m, instruction, events, log, i, j);
    RoundIsDictated(m, log, i, j, PayloadSetBy(log[j], payload), QueueSetBy(log[j], instruction)[i - j - 1..],
                    maxSteps, events[i - 1..]);
  }

  // ---------------------------------------------------------------- counts and the result

  /** The positions of the state transitions. */
  function Moves(facts: seq<Fact>): set<nat> {
    set k | 0 <= k < |facts| && facts[k].StateTransition?
  }

  lemma {:induction false} TransitionsAreMoves(facts: seq<Fact>)
    ensures Transitions(facts) == |Moves(facts)|
  {
    if facts != [] {
      var n := |facts| - 1;
      TransitionsAreMoves(facts[..n]);
      assert Moves(facts) == Moves(facts[..n]) + (if facts[n].StateTransition? then {n} else {});
    }
  }

  /** The last state transition, or else the first fact. */
  predicate LastMoveAt(facts: seq<Fact>, j: nat) {
    j < |facts| && (facts[j].StateTransition? || j == 0) && forall k | j < k < |facts| :: !facts[k].StateTransition?
  }

  lemma {:induction false} FinalIsLast(facts: seq<Fact>, initial: JsonValue, j: nat)
    requires LastMoveAt(facts, j)
    ensures FinalPayload(facts, initial) == PayloadSetBy(facts[j], initial)
  {
    if j + 1 < |facts| {
      FinalIsLast(facts[..|facts| - 1], initial, j);
    } else if j == 0 && !facts[j].StateTransition? {
      assert facts[..0] == [];
    }
  }

  lemma LastMove(facts: seq<Fact>) returns (j: nat)
    requires facts != []
    ensures LastMoveAt(facts, j)
  {
    j := |facts| - 1;
    while j > 0 && !facts[j].StateTransition?
      invariant j < |facts| && forall k | j < k < |facts| :: !facts[k].StateTransition?
    {
      j := j - 1;
    }
  }

  /** The closing fact declares as stable the number of state transitions in the log, and the payload that is
      handed back is that of the last of them, else the initial one. */
  lemma LogCloses(m: Machine, payload: JsonValue, instruction: JsonValue, maxSteps: nat) returns (j: nat)
    requires maxSteps + 4 < U64_SIZE
    ensures var log := Log(m, payload, instruction, maxSteps);
            var last := log[|log| - 1];
            && last.Stable? && last.id == |log| && last.version == |Moves(log)|
            && LastMoveAt(log, j)
            && FinalPayload(Body(m, payload, instruction, maxSteps), payload) == PayloadSetBy(log[j], payload)
  {
    var body, log := Body(m, payload, instruction, maxSteps), Log(m, payload, instruction, maxSteps);
    j := LastMove(body);
    FinalIsLast(body, payload, j);
    TransitionsAreMoves(body);
    assert Moves(log) == Moves(body);
  }
}
