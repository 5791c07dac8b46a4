/** The command-line executor's loop (evorule-cli/src/executor.rs) around an arbitrary transition function. */
module Executor {
  import opened Base
  import opened Json
  import opened Facts

  datatype Transition =
    | NewState(payload: JsonValue, queue: seq<JsonValue>)
    | IoRequired(ioType: string, params: JsonValue)
    | Ignored(instructionType: string, reason: string)
    | Halted(ruleIndex: u64, reason: string)

  /** `step` is `execute_transition` on an instruction, a payload and the queue behind the instruction; its
      error is the text it prints as. `debug` and `number` print an instruction and a count inside a message. */
  datatype Machine = Machine(
    step: (JsonValue, JsonValue, seq<JsonValue>) -> Result<Transition, string>,
    debug: JsonValue -> string,
    number: nat -> string)

  // ---------------------------------------------------------------- what happens, without labels

  datatype Fault =
    | StepsExceeded
    | NoHandler(ioType: string)
    | NotMatched(instructionType: string, reason: string, instruction: JsonValue)
    | TcbError(text: string)

  /** What an iteration of the loop records, before ids, causes and step numbers. */
  datatype Event =
    | Moved(payload: JsonValue, queue: seq<JsonValue>)
    | Asked(ioType: string, params: JsonValue)
    | Blocked(ruleIndex: u64, reason: string, instruction: JsonValue)
    | Failed(fault: Fault)

  /** Everything that happens from a queue and a payload with a budget of steps. */
  function Events(m: Machine, queue: seq<JsonValue>, payload: JsonValue, budget: nat): seq<Event>
    decreases budget
  {
    if queue == [] then []
    else if budget == 0 then [Failed(StepsExceeded)]
    else
      var instruction, rest := queue[0], queue[1..];
      match m.step(instruction, payload, rest)
      case Ok(NewState(p, q)) => [Moved(p, q)] + Events(m, q, p, budget - 1)
      case Ok(Halted(index, reason)) => [Blocked(index, reason, instruction)] + Events(m, rest, payload, budget - 1)
      case Ok(IoRequired(ioType, params)) => [Asked(ioType, params), Failed(NoHandler(ioType))]
      case Ok(Ignored(kind, reason)) => [Failed(NotMatched(kind, reason, instruction))]
      case Err(text) => [Failed(TcbError(text))]
  }

  lemma {:induction false} EventsAreFew(m: Machine, queue: seq<JsonValue>, payload: JsonValue, budget: nat)
    ensures |Events(m, queue, payload, budget)| <= budget + 1
    decreases budget
  {
    if queue != [] && budget > 0 {
      var r := m.step(queue[0], payload, queue[1..]);
      if r.Ok? && r.value.NewState? {
        EventsAreFew(m, r.value.queue, r.value.payload, budget - 1);
      } else if r.Ok? && r.value.Halted? {
        EventsAreFew(m, queue[1..], payload, budget - 1);
      }
    }
  }

  // ---------------------------------------------------------------- labels

  function Message(m: Machine, fault: Fault, steps: nat): string {
    match fault
    case StepsExceeded => "max_steps exceeded: " + m.number(steps)
    case NoHandler(ioType) => "no I/O handler for io_type=" + ioType
    case NotMatched(kind, reason, instruction) =>
      "Instruction ignored by TCB: type=" + kind + ", reason=" + reason + ", instruction=" + m.debug(instruction)
    case TcbError(text) => "TCB error at step " + m.number(steps + 1) + ": " + text
  }

  /** The fact recorded for an event that comes after `steps` steps. */
  function Label(m: Machine, e: Event, id: FactId, cause: FactId, steps: nat): Fact {
    match e
    case Moved(payload, queue) => StateTransition(id, cause, payload, queue)
    case Asked(ioType, params) => IoRequest(id, cause, ioType, params)
    case Blocked(index, reason, instruction) => Violation(id, cause, index, reason, instruction)
    case Failed(fault) => Error(id, Message(m, fault, steps))
  }

  /** The id that causes event `i`: that of the state transition before it, else the one it starts with. */
  function CauseAt(events: seq<Event>, id: nat, cause: nat, i: nat): (c: nat)
    requires i <= |events| && cause < id
    ensures c < id + i
  {
    if i == 0 then cause else if events[i - 1].Moved? then id + i - 1 else CauseAt(events, id, cause, i - 1)
  }

  function FactOf(m: Machine, events: seq<Event>, id: nat, cause: nat, steps: nat, i: nat): Fact
    requires i < |events| && id + i < U64_SIZE && cause < id
  {
    Label(m, events[i], id + i, CauseAt(events, id, cause, i), steps + i)
  }

  /** Consecutive ids from `id` on; each fact is caused by the state transition before it. */
  function LabelAll(m: Machine, events: seq<Event>, id: nat, cause: nat, steps: nat): seq<Fact>
    requires id + |events| <= U64_SIZE && cause < id
  {
    seq(|events|, i requires 0 <= i < |events| => FactOf(m, events, id, cause, steps, i))
  }

  /** Labels after a first event are the labels of the rest, one further on. */
  lemma {:induction false} FactCons(m: Machine, events: seq<Event>, id: nat, cause: nat, steps: nat, i: nat)
    requires 0 < i < |events| && id + i < U64_SIZE && cause < id
    ensures FactOf(m, events, id, cause, steps, i)
         == FactOf(m, events[1..], id + 1, if events[0].Moved? then id else cause, steps + 1, i - 1)
  {
    CauseShift(events, id, cause, i);
  }

  lemma {:induction false} CauseShift(events: seq<Event>, id: nat, cause: nat, i: nat)
    requires 0 < i <= |events| && cause < id
    ensures CauseAt(events, id, cause, i) == CauseAt(events[1..], id + 1, if events[0].Moved? then id else cause, i - 1)
  {
    if i > 1 {
      CauseShift(events, id, cause, i - 1);
    }
  }

  lemma LabelCons(m: Machine, e: Event, rest: seq<Event>, id: nat, cause: nat, steps: nat)
    requires id + 1 + |rest| <= U64_SIZE && cause < id
    ensures LabelAll(m, [e] + rest, id, cause, steps)
         == [Label(m, e, id, cause, steps)] + LabelAll(m, rest, id + 1, if e.Moved? then id else cause, steps + 1)
  {
    var events := [e] + rest;
    assert events[1..] == rest;
    forall i | 0 < i < |events|
      ensures FactOf(m, events, id, cause, steps, i)
           == FactOf(m, rest, id + 1, if e.Moved? then id else cause, steps + 1, i - 1)
    {
      FactCons(m, events, id, cause, steps, i);
    }
    assert FactOf(m, events, id, cause, steps, 0) == Label(m, e, id, cause, steps);
  }

  // ---------------------------------------------------------------- the log

  /** The number of state transitions among some facts. */
  function Transitions(facts: seq<Fact>): nat {
    if facts == [] then 0
    else Transitions(facts[..|facts| - 1]) + if facts[|facts| - 1].StateTransition? then 1 else 0
  }

  /** The payload of the last state transition, or the initial one. */
  function FinalPayload(facts: seq<Fact>, initial: JsonValue): JsonValue {
    if facts == [] then initial
    else if facts[|facts| - 1].StateTransition? then facts[|facts| - 1].newPayload
    else FinalPayload(facts[..|facts| - 1], initial)
  }

  lemma FactSnoc(facts: seq<Fact>, f: Fact, initial: JsonValue)
    ensures Transitions(facts + [f]) == Transitions(facts) + if f.StateTransition? then 1 else 0
    ensures FinalPayload(facts + [f], initial) == if f.StateTransition? then f.newPayload else FinalPayload(facts, initial)
  {
    assert (facts + [f])[..|facts|] == facts;
  }

  lemma {:induction false} TransitionsAreFew(facts: seq<Fact>)
    ensures Transitions(facts) <= |facts|
  {
    if facts != [] {
      TransitionsAreFew(facts[..|facts| - 1]);
    }
  }

  /** The command and the labelled events. */
  function Recorded(m: Machine, instruction: JsonValue, events: seq<Event>): seq<Fact>
    requires |events| + 2 <= U64_SIZE
  {
    [Command(1, instruction)] + LabelAll(m, events, 2, 1, 0)
  }

  /** The log of an execution up to its last event. */
  function Body(m: Machine, payload: JsonValue, instruction: JsonValue, maxSteps: nat): (body: seq<Fact>)
    requires maxSteps + 4 < U64_SIZE
    ensures 1 <= |body| <= maxSteps + 2
  {
    EventsAreFew(m, [instruction], payload, maxSteps);
    Recorded(m, instruction, Events(m, [instruction], payload, maxSteps))
  }

  /** The whole log: every execution ends by declaring its version stable. */
  function Log(m: Machine, payload: JsonValue, instruction: JsonValue, maxSteps: nat): seq<Fact>
    requires maxSteps + 4 < U64_SIZE
  {
    var body := Body(m, payload, instruction, maxSteps);
    TransitionsAreFew(body);
    body + [Stable(|body| + 1, Transitions(body))]
  }

  // ---------------------------------------------------------------- the loop as written

  /** The facts still to come from a state of the loop. */
  ghost function Rest(m: Machine, queue: seq<JsonValue>, payload: JsonValue, budget: nat, id: nat, cause: nat, steps: nat): seq<Fact>
    requires id + budget + 1 <= U64_SIZE && cause < id
  {
    EventsAreFew(m, queue, payload, budget);
    LabelAll(m, Events(m, queue, payload, budget), id, cause, steps)
  }

  /** The loop's variables; `stopped` once an iteration has broken out of the loop. */
  datatype Loop = Loop(facts: seq<Fact>, queue: seq<JsonValue>, payload: JsonValue, steps: nat, version: nat,
                       cause: FactId, stopped: bool)

  /** The facts so far and the facts to come make up `body`, and the counters describe the facts so far. */
  ghost predicate OnTrack(m: Machine, s: Loop, body: seq<Fact>, initial: JsonValue, maxSteps: nat)
    requires maxSteps + 4 < U64_SIZE
  {
    && (if s.stopped then s.facts == body else Completes(m, s, body, maxSteps))
    && s.version == Transitions(s.facts) && s.payload == FinalPayload(s.facts, initial)
  }

  ghost predicate Completes(m: Machine, s: Loop, body: seq<Fact>, maxSteps: nat)
    requires maxSteps + 4 < U64_SIZE
  {
    && s.steps <= maxSteps && |s.facts| == s.steps + 1 && s.cause < s.steps + 2
    && s.facts + RestOf(m, s, maxSteps) == body
  }

  /** `maxSteps` leaves room for the ids, which the source counts in a u64. */
  method Execute(m: Machine, initialPayload: JsonValue, initialInstruction: JsonValue, maxSteps: nat)
    returns (facts: seq<Fact>, payload: JsonValue)
    requires maxSteps + 4 < U64_SIZE
    ensures facts == Log(m, initialPayload, initialInstruction, maxSteps)
    ensures payload == FinalPayload(Body(m, initialPayload, initialInstruction, maxSteps), initialPayload)
  {
    ghost var body := Body(m, initialPayload, initialInstruction, maxSteps);
    var s := Loop([Command(1, initialInstruction)], [initialInstruction], initialPayload, 0, 0, 1, false);
    FactSnoc([], s.facts[0], initialPayload);
    assert [] + s.facts == s.facts;
    while s.queue != [] && !s.stopped
      invariant OnTrack(m, s, body, initialPayload, maxSteps)
      decreases !s.stopped, maxSteps - s.steps
    {
      s := Iterate(m, s, maxSteps, body, initialPayload);
    }
    assert s.facts == body;
    TransitionsAreFew(body);
    return s.facts + [Stable(|s.facts| + 1, s.version)], s.payload;
  }

  /** One iteration: check the budget, then pop, then execute. */
  method Iterate(m: Machine, s: Loop, maxSteps: nat, ghost body: seq<Fact>, ghost initial: JsonValue) returns (t: Loop)
    requires maxSteps + 4 < U64_SIZE && OnTrack(m, s, body, initial, maxSteps) && s.queue != [] && !s.stopped
    ensures OnTrack(m, t, body, initial, maxSteps) && (t.stopped || t.steps == s.steps + 1)
  {
    var next := |s.facts| + 1;
    if s.steps >= maxSteps {
      t := s.(facts := s.facts + [Error(next, Message(m, StepsExceeded, s.steps))], stopped := true);
      StopStaysOnTrack(m, s, t, body, initial, maxSteps);
      return;
    }
    var instruction := s.queue[0];
    var snapshot := s.queue[1..];
    match m.step(instruction, s.payload, snapshot) {
      case Ok(NewState(payload, queue)) =>
        t := Loop(s.facts + [StateTransition(next, s.cause, payload, queue)], queue, payload,
                  s.steps + 1, s.version + 1, next, false);
        NextStaysOnTrack(m, s, t, body, initial, maxSteps);
      case Ok(Halted(ruleIndex, reason)) =>
        t := s.(facts := s.facts + [Violation(next, s.cause, ruleIndex, reason, instruction)],
                queue := snapshot, steps := s.steps + 1);
        NextStaysOnTrack(m, s, t, body, initial, maxSteps);
      case Ok(IoRequired(ioType, params)) =>
        t := s.(facts := s.facts + [IoRequest(next, s.cause, ioType, params),
                                    Error(next + 1, Message(m, NoHandler(ioType), s.steps))], stopped := true);
        StopStaysOnTrack(m, s, t, body, initial, maxSteps);
      case Ok(Ignored(kind, reason)) =>
        t := s.(facts := s.facts + [Error(next, Message(m, NotMatched(kind, reason, instruction), s.steps))], stopped := true);
        StopStaysOnTrack(m, s, t, body, initial, maxSteps);
      case Err(text) =>
        t := s.(facts := s.facts + [Error(next, Message(m, TcbError(text), s.steps))], stopped := true);
        StopStaysOnTrack(m, s, t, body, initial, maxSteps);
    }
  }

  /** The state after an iteration that goes on. */
  function Advanced(m: Machine, s: Loop): Loop
    requires s.queue != [] && |s.facts| + 1 < U64_SIZE
  {
    var next, rest := |s.facts| + 1, s.queue[1..];
    match m.step(s.queue[0], s.payload, rest)
    case Ok(NewState(p, q)) =>
      Loop(s.facts + [StateTransition(next, s.cause, p, q)], q, p, s.steps + 1, s.version + 1, next, false)
    case Ok(Halted(index, reason)) =>
      s.(facts := s.facts + [Violation(next, s.cause, index, reason, s.queue[0])], queue := rest, steps := s.steps + 1)
    case _ => s
  }

  lemma NextStaysOnTrack(m: Machine, s: Loop, t: Loop, body: seq<Fact>, initial: JsonValue, maxSteps: nat)
    requires maxSteps + 4 < U64_SIZE && OnTrack(m, s, body, initial, maxSteps) && s.queue != [] && !s.stopped
    requires s.steps < maxSteps && GoesOn(m.step(s.queue[0], s.payload, s.queue[1..])) && t == Advanced(m, s)
    ensures OnTrack(m, t, body, initial, maxSteps)
  {
    AdvancedCounts(m, s, initial);
    AdvancedCompletes(m, s, body, maxSteps);
  }

  lemma AdvancedCompletes(m: Machine, s: Loop, body: seq<Fact>, maxSteps: nat)
    requires maxSteps + 4 < U64_SIZE && Completes(m, s, body, maxSteps) && s.queue != []
    requires s.steps < maxSteps && GoesOn(m.step(s.queue[0], s.payload, s.queue[1..]))
    ensures Completes(m, Advanced(m, s), body, maxSteps)
  {
    var t := Advanced(m, s);
    assert t.steps == s.steps + 1 && |t.facts| == t.steps + 1 && t.cause < t.steps + 2;
    match m.step(s.queue[0], s.payload, s.queue[1..]) {
      case Ok(NewState(p, q)) =>
        MovedFirst(m, s, t, maxSteps, p, q);
        NextIsLabelled(m, s, t, maxSteps, Moved(p, q), EventsOf(m, t, maxSteps));
      case Ok(Halted(index, reason)) =>
        BlockedFirst(m, s, t, maxSteps, index, reason);
        NextIsLabelled(m, s, t, maxSteps, Blocked(index, reason, s.queue[0]), EventsOf(m, t, maxSteps));
    }
    OneFactOn(s.facts, RestOf(m, s, maxSteps), t.facts[|s.facts|], RestOf(m, t, maxSteps));
  }

  /** The facts still to come. */
  ghost function RestOf(m: Machine, s: Loop, maxSteps: nat): seq<Fact>
    requires maxSteps + 4 < U64_SIZE && s.steps <= maxSteps && s.cause < s.steps + 2
  {
    Rest(m, s.queue, s.payload, maxSteps - s.steps, s.steps + 2, s.cause, s.steps)
  }

  lemma OneFactOn(done: seq<Fact>, now: seq<Fact>, f: Fact, later: seq<Fact>)
    requires now == [f] + later
    ensures done + now == (done + [f]) + later
  {
  }

  lemma AdvancedCounts(m: Machine, s: Loop, initial: JsonValue)
    requires s.queue != [] && |s.facts| + 1 < U64_SIZE
    requires s.version == Transitions(s.facts) && s.payload == FinalPayload(s.facts, initial)
    ensures var t := Advanced(m, s); t.version == Transitions(t.facts) && t.payload == FinalPayload(t.facts, initial)
  {
    var t := Advanced(m, s);
    if t != s {
      FactSnoc(s.facts, t.facts[|s.facts|], initial);
    }
  }

  lemma StopStaysOnTrack(m: Machine, s: Loop, t: Loop, body: seq<Fact>, initial: JsonValue, maxSteps: nat)
    requires maxSteps + 4 < U64_SIZE && OnTrack(m, s, body, initial, maxSteps) && s.queue != [] && !s.stopped
    requires s.steps == maxSteps || !GoesOn(m.step(s.queue[0], s.payload, s.queue[1..]))
    requires t == s.(facts := s.facts + LastFacts(m, s.queue, s.payload, maxSteps - s.steps, s.steps + 2, s.cause, s.steps),
                     stopped := true)
    ensures OnTrack(m, t, body, initial, maxSteps)
  {
    StopIsLabelled(m, s.queue, s.payload, maxSteps - s.steps, s.steps + 2, s.cause, s.steps);
    QuietTail(s.facts, LastFacts(m, s.queue, s.payload, maxSteps - s.steps, s.steps + 2, s.cause, s.steps), initial);
  }

  lemma {:induction false} QuietTail(facts: seq<Fact>, more: seq<Fact>, initial: JsonValue)
    requires forall i | 0 <= i < |more| :: !more[i].StateTransition?
    ensures Transitions(facts + more) == Transitions(facts) && FinalPayload(facts + more, initial) == FinalPayload(facts, initial)
  {
    if more == [] {
      assert facts + more == facts;
    } else {
      var front, last := more[..|more| - 1], more[|more| - 1];
      QuietTail(facts, front, initial);
      FactSnoc(facts + front, last, initial);
      assert facts + more == facts + front + [last];
    }
  }

  predicate GoesOn(r: Result<Transition, string>) {
    r.Ok? && (r.value.NewState? || r.value.Halted?)
  }

  /** The facts of an iteration that stops the loop. */
  function LastFacts(m: Machine, queue: seq<JsonValue>, payload: JsonValue, budget: nat, id: nat, cause: nat, steps: nat): seq<Fact>
    requires queue != [] && id + budget + 1 <= U64_SIZE && cause < id
    requires budget == 0 || !GoesOn(m.step(queue[0], payload, queue[1..]))
  {
    if budget == 0 then [Error(id, Message(m, StepsExceeded, steps))]
    else
      match m.step(queue[0], payload, queue[1..])
      case Ok(IoRequired(ioType, params)) =>
        [IoRequest(id, cause, ioType, params), Error(id + 1, Message(m, NoHandler(ioType), steps))]
      case Ok(Ignored(kind, reason)) => [Error(id, Message(m, NotMatched(kind, reason, queue[0]), steps))]
      case Err(text) => [Error(id, Message(m, TcbError(text), steps))]
  }

  lemma StopIsLabelled(m: Machine, queue: seq<JsonValue>, payload: JsonValue, budget: nat, id: nat, cause: nat, steps: nat)
    requires queue != [] && id + budget + 1 <= U64_SIZE && cause < id
    requires budget == 0 || !GoesOn(m.step(queue[0], payload, queue[1..]))
    ensures Rest(m, queue, payload, budget, id, cause, steps) == LastFacts(m, queue, payload, budget, id, cause, steps)
  {
    var r := m.step(queue[0], payload, queue[1..]);
    if budget > 0 && r.Ok? && r.value.IoRequired? {
      AskedThenFailed(m, r.value.ioType, r.value.params, id, cause, steps);
    } else {
      OnlyFailed(m, Events(m, queue, payload, budget)[0].fault, id, cause, steps);
    }
  }

  lemma OnlyFailed(m: Machine, fault: Fault, id: nat, cause: nat, steps: nat)
    requires id + 1 <= U64_SIZE && cause < id
    ensures var events := [Failed(fault)];
            LabelAll(m, events, id, cause, steps) == [Error(id, Message(m, fault, steps))]
  {
  }

  lemma AskedThenFailed(m: Machine, ioType: string, params: JsonValue, id: nat, cause: nat, steps: nat)
    requires id + 2 <= U64_SIZE && cause < id
    ensures var events := [Asked(ioType, params), Failed(NoHandler(ioType))];
            LabelAll(m, events, id, cause, steps)
               == [IoRequest(id, cause, ioType, params), Error(id + 1, Message(m, NoHandler(ioType), steps))]
  {
    LabelCons(m, Asked(ioType, params), [Failed(NoHandler(ioType))], id, cause, steps);
  }

  /** The events still to come. */
  ghost function EventsOf(m: Machine, s: Loop, maxSteps: nat): seq<Event>
    requires s.steps <= maxSteps
  {
    Events(m, s.queue, s.payload, maxSteps - s.steps)
  }

  lemma RestIsLabelled(m: Machine, s: Loop, maxSteps: nat, events: seq<Event>)
    requires maxSteps + 4 < U64_SIZE && s.steps <= maxSteps && s.cause < s.steps + 2 && events == EventsOf(m, s, maxSteps)
    ensures s.steps + 2 + |events| <= U64_SIZE
    ensures RestOf(m, s, maxSteps) == LabelAll(m, events, s.steps + 2, s.cause, s.steps)
  {
    EventsAreFew(m, s.queue, s.payload, maxSteps - s.steps);
  }

  /** One event on, the facts still to come are the event's own fact and those of the next state. */
  lemma NextIsLabelled(m: Machine, s: Loop, t: Loop, maxSteps: nat, e: Event, rest: seq<Event>)
    requires maxSteps + 4 < U64_SIZE && s.steps < maxSteps && s.cause < s.steps + 2
    requires t.steps == s.steps + 1 && t.cause == if e.Moved? then s.steps + 2 else s.cause
    requires EventsOf(m, s, maxSteps) == [e] + rest && rest == EventsOf(m, t, maxSteps)
    ensures RestOf(m, s, maxSteps) == [Label(m, e, s.steps + 2, s.cause, s.steps)] + RestOf(m, t, maxSteps)
  {
    RestIsLabelled(m, s, maxSteps, [e] + rest);
    RestIsLabelled(m, t, maxSteps, rest);
    LabelCons(m, e, rest, s.steps + 2, s.cause, s.steps);
  }

  lemma MovedFirst(m: Machine, s: Loop, t: Loop, maxSteps: nat, p: JsonValue, q: seq<JsonValue>)
    requires s.queue != [] && s.steps < maxSteps && m.step(s.queue[0], s.payload, s.queue[1..]) == Ok(NewState(p, q))
    requires t.steps == s.steps + 1 && t.queue == q && t.payload == p
    ensures EventsOf(m, s, maxSteps) == [Moved(p, q)] + EventsOf(m, t, maxSteps)
  {
  }

  lemma BlockedFirst(m: Machine, s: Loop, t: Loop, maxSteps: nat, index: u64, reason: string)
    requires s.queue != [] && s.steps < maxSteps && m.step(s.queue[0], s.payload, s.queue[1..]) == Ok(Halted(index, reason))
    requires t.steps == s.steps + 1 && t.queue == s.queue[1..] && t.payload == s.payload
    ensures EventsOf(m, s, maxSteps) == [Blocked(index, reason, s.queue[0])] + EventsOf(m, t, maxSteps)
  {
  }
}
