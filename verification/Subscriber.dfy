/** The I/O subscriber (evorule-governance/src/io_subscriber.rs): it answers I/O requests on the command
    channel after the breaker, the permission gate and up to four dispatch attempts. */
module Subscriber {
  import opened Base
  import opened Json
  import opened Facts
  import opened Breaker

  const ID_OFFSET: nat := 10000
  const MAX_RETRIES: nat := 3

  datatype Verdict = Allow | Reject | Candidate

  /** What the permission gate rules on a request; `route` names a static rule that was hit. */
  datatype Ruling = Ruling(verdict: Verdict, route: Option<string>)

  /** The parts a subscriber is assembled from; `gated` when it has a permission gate. */
  datatype Parts = Parts(
    skip: Option<(string, JsonValue) -> bool>,
    gated: bool,
    retryable: string -> bool,
    breaker: Option<Config>)

  /** A fact from the event channel with what the outside world contributes: the clock read before asking the
      breaker and before recording a denial, the gate's ruling, and the dispatcher's answer to each attempt. */
  datatype Arrival = Arrival(
    fact: Fact, asked: nat, denied: nat, ruling: Ruling, answers: nat -> Result<JsonValue, string>)

  datatype View = View(nextId: nat, breaker: BreakerView)

  const START: View := View(ID_OFFSET, FRESH)

  // ---------------------------------------------------------------- texts

  function TrippedText(ioType: string): string {
    "circuit breaker tripped" + " (circuit=tripped): io_type=" + ioType + " egress denied until window expiry"
  }

  const NO_GATE_TEXT: string :=
    "permission gate" + " not assembled (fail-closed): this subscriber"
    + " requires with_permission_gate(..) before it dispatches I/O"

  function DeniedText(ioType: string, r: Ruling): string {
    "permission denied" + (if r.route.Some? then " (route=" + r.route.value + ")" else "") + ": io_type=" + ioType + " "
    + (if r.verdict == Reject then "denied by permission gate" else "pending permission approval (fail-closed)")
    + ", resource=io:" + ioType
  }

  function SignalInstruction(value: JsonValue): JsonValue {
    Object(map["type" := String("set"),
               "params" := Object(map["attr" := String("meta_security.circuit_breaker"), "operation" := String("set"),
                                      "value" := value])])
  }

  // ---------------------------------------------------------------- what one arrival leads to

  /** An I/O request that is this subscriber's to answer. */
  predicate Mine(parts: Parts, f: Fact) {
    f.IoRequest? && !(parts.skip.Some? && parts.skip.value(f.ioType, f.params))
  }

  predicate Refused(parts: Parts, v: View, a: Arrival) {
    parts.breaker.Some? && Tripped(v.breaker, a.asked)
  }

  /** The breaker after it has been asked. */
  function AskedBreaker(parts: Parts, v: View, a: Arrival): BreakerView {
    if parts.breaker.Some? then Checked(v.breaker, a.asked) else v.breaker
  }

  function RulingOf(parts: Parts, a: Arrival): Option<Ruling> {
    if parts.gated then Some(a.ruling) else None
  }

  /** The gate turned the request down by a static route, which is what the breaker counts. */
  predicate StaticDenial(parts: Parts, v: View, a: Arrival) {
    && Mine(parts, a.fact) && parts.breaker.Some? && !Refused(parts, v, a)
    && RulingOf(parts, a).Some? && RulingOf(parts, a).value.verdict != Allow
    && RulingOf(parts, a).value.route.Some?
  }

  predicate Signals(parts: Parts, v: View, a: Arrival) {
    StaticDenial(parts, v, a) && Trips(parts.breaker.value, AskedBreaker(parts, v, a), a.denied)
  }

  predicate Dispatched(parts: Parts, v: View, a: Arrival) {
    Mine(parts, a.fact) && !Refused(parts, v, a) && RulingOf(parts, a).Some? && RulingOf(parts, a).value.verdict == Allow
  }

  /** The attempt whose answer is final: the first that succeeds, is not worth retrying, or is the fourth. */
  function FinalAttempt(parts: Parts, answers: nat -> Result<JsonValue, string>, attempt: nat): (n: nat)
    requires 1 <= attempt <= MAX_RETRIES + 1
    ensures attempt <= n <= MAX_RETRIES + 1
    decreases MAX_RETRIES + 1 - attempt
  {
    if answers(attempt).Err? && attempt <= MAX_RETRIES && parts.retryable(answers(attempt).error)
    then FinalAttempt(parts, answers, attempt + 1)
    else attempt
  }

  /** Result and error of the response to a request of ours. */
  function Answer(parts: Parts, v: View, a: Arrival): (JsonValue, Option<string>)
    requires Mine(parts, a.fact)
  {
    if Refused(parts, v, a) then (Null, Some(TrippedText(a.fact.ioType)))
    else
      match RulingOf(parts, a)
      case None => (Null, Some(NO_GATE_TEXT))
      case Some(r) =>
        if r.verdict != Allow then (Null, Some(DeniedText(a.fact.ioType, r)))
        else
          match a.answers(FinalAttempt(parts, a.answers, 1))
          case Ok(result) => (result, None)
          case Err(text) => (Null, Some(text))
  }

  /** The trip signal, if there is one. */
  function SignalFor(parts: Parts, v: View, a: Arrival): seq<Fact>
    requires v.nextId < U64_SIZE
  {
    if Signals(parts, v, a) then
      [Command(v.nextId, SignalInstruction(SignalValue(parts.breaker.value, parts.breaker.value.threshold)))]
    else []
  }

  /** The facts produced, in order: the trip signal if there is one, then the response. */
  function Produced(parts: Parts, v: View, a: Arrival): seq<Fact>
    requires v.nextId + 2 <= U64_SIZE
  {
    if !Mine(parts, a.fact) then []
    else
      var (result, error) := Answer(parts, v, a);
      SignalFor(parts, v, a) + [IoResponse(v.nextId + if Signals(parts, v, a) then 1 else 0, a.fact.id, result, error)]
  }

  lemma ProducedParts(parts: Parts, v: View, a: Arrival, id: nat, result: JsonValue, error: Option<string>, sent: seq<Fact>)
    requires v.nextId + 2 <= U64_SIZE && Mine(parts, a.fact) && (result, error) == Answer(parts, v, a)
    requires id == v.nextId + if Signals(parts, v, a) then 1 else 0
    ensures sent + Produced(parts, v, a) == sent + SignalFor(parts, v, a) + [IoResponse(id, a.fact.id, result, error)]
  {
  }

  function BreakerAfter(parts: Parts, v: View, a: Arrival): BreakerView {
    if !Mine(parts, a.fact) then v.breaker
    else if StaticDenial(parts, v, a) then Recorded(parts.breaker.value, AskedBreaker(parts, v, a), a.denied)
    else AskedBreaker(parts, v, a)
  }

  function ViewAfter(parts: Parts, v: View, a: Arrival): View {
    View(v.nextId + (if !Mine(parts, a.fact) then 0 else if Signals(parts, v, a) then 2 else 1), BreakerAfter(parts, v, a))
  }

  // ---------------------------------------------------------------- the objects

  /** The command channel: what has been sent, unless the receiver has gone. */
  class FactSender {
    var open: bool
    var sent: seq<Fact>

    constructor ()
      ensures open && sent == []
    {
      open, sent := true, [];
    }

    /** The receiver goes away. */
    method Close()
      modifies this`open
      ensures !open
    {
      open := false;
    }

    method Send(f: Fact) returns (ok: bool)
      modifies this
      ensures ok == old(open) == open
      ensures sent == if ok then old(sent) + [f] else old(sent)
    {
      ok := open;
      if open {
        sent := sent + [f];
      }
    }
  }

  class IoSubscriber {
    const parts: Parts
    const circuit: CircuitState?
    var nextId: nat

    ghost predicate Valid()
      reads this, circuit
    {
      && (circuit != null <==> parts.breaker.Some?)
      && (circuit != null ==> circuit.config == parts.breaker.value && Bounded(circuit.config, circuit.View()))
    }

    ghost function Current(): View
      reads this, circuit
    {
      View(nextId, if circuit == null then FRESH else circuit.View())
    }

    constructor (parts: Parts)
      ensures this.parts == parts && Valid() && Current() == START && (circuit != null ==> fresh(circuit))
    {
      this.parts := parts;
      nextId := ID_OFFSET;
      if parts.breaker.Some? {
        circuit := new CircuitState(parts.breaker.value);
      } else {
        circuit := null;
      }
    }

    method NextFactId() returns (id: FactId)
      requires nextId < U64_SIZE
      modifies this`nextId
      ensures id == old(nextId) && nextId == old(nextId) + 1
    {
      id := nextId;
      nextId := nextId + 1;
    }

    /** Anything but a request of ours is ignored; a request of ours is dispatched and answered. */
    method HandleFact(a: Arrival, channel: FactSender) returns (ok: bool, ghost attempts: nat)
      requires Valid() && nextId + 2 <= U64_SIZE
      modifies this`nextId, circuit, channel
      ensures Valid() && Current() == ViewAfter(parts, old(Current()), a)
      ensures channel.open == old(channel.open)
      ensures old(channel.open) ==> ok && channel.sent == old(channel.sent) + Produced(parts, old(Current()), a)
      ensures !old(channel.open) ==> ok == !Mine(parts, a.fact) && channel.sent == old(channel.sent)
      ensures attempts == if Dispatched(parts, old(Current()), a) then FinalAttempt(parts, a.answers, 1) else 0
    {
      if !a.fact.IoRequest? {
        return true, 0;
      }
      if parts.skip.Some? {
        if parts.skip.value(a.fact.ioType, a.fact.params) {
          return true, 0;
        }
      }
      ok, attempts := DispatchAndRespond(a, channel);
    }

    method DispatchAndRespond(a: Arrival, channel: FactSender) returns (ok: bool, ghost attempts: nat)
      requires Valid() && nextId + 2 <= U64_SIZE && Mine(parts, a.fact)
      modifies this`nextId, circuit, channel
      ensures Valid() && Current() == ViewAfter(parts, old(Current()), a)
      ensures channel.open == old(channel.open) == ok
      ensures channel.sent == if ok then old(channel.sent) + Produced(parts, old(Current()), a) else old(channel.sent)
      ensures attempts == if Dispatched(parts, old(Current()), a) then FinalAttempt(parts, a.answers, 1) else 0
    {
      var f := a.fact;
      var result: JsonValue, error;
      ghost var v, sent := Current(), channel.sent;
      result, error, attempts := Decide(a, channel);
      ghost var id := nextId;
      ok := Respond(f.id, result, error, channel);
      ProducedParts(parts, v, a, id, result, error, sent);
    }

    /** Breaker, gate and dispatch, in this order; a trip is signalled on the way. */
    method Decide(a: Arrival, channel: FactSender) returns (result: JsonValue, error: Option<string>, ghost attempts: nat)
      requires Valid() && nextId + 2 <= U64_SIZE && Mine(parts, a.fact)
      modifies this`nextId, circuit, channel
      ensures Valid() && Current().breaker == BreakerAfter(parts, old(Current()), a)
      ensures nextId == old(nextId) + (if Signals(parts, old(Current()), a) then 1 else 0)
      ensures (result, error) == Answer(parts, old(Current()), a)
      ensures channel.open == old(channel.open)
      ensures channel.sent == old(channel.sent) + if channel.open then SignalFor(parts, old(Current()), a) else []
      ensures attempts == if Dispatched(parts, old(Current()), a) then FinalAttempt(parts, a.answers, 1) else 0
    {
      var f := a.fact;
      result, error := Null, None;
      attempts := 0;
      var tripped := AskBreaker(a.asked);
      if tripped {
        error := Some(TrippedText(f.ioType));
      } else if !parts.gated {
        error := Some(NO_GATE_TEXT);
      } else if a.ruling.verdict != Allow {
        if a.ruling.route.Some? && circuit != null {
          CountDenial(a.denied, channel);
        }
        error := Some(DeniedText(f.ioType, a.ruling));
      } else {
        result, error, attempts := DispatchWithRetries(a);
      }
    }

    method AskBreaker(now: nat) returns (tripped: bool)
      requires Valid()
      modifies circuit
      ensures Valid() && nextId == old(nextId)
      ensures tripped == (parts.breaker.Some? && Tripped(old(Current()).breaker, now))
      ensures Current().breaker == if parts.breaker.Some? then Checked(old(Current()).breaker, now) else FRESH
    {
      tripped := false;
      if circuit != null {
        StaysBounded(circuit.config, circuit.View(), now);
        tripped := circuit.IsTripped(now);
      }
    }

    /** Count a static denial; when it trips the breaker, submit the signal as a command. A failure to
        submit it does not stop the response. */
    method CountDenial(now: nat, channel: FactSender)
      requires Valid() && circuit != null && nextId < U64_SIZE
      modifies this`nextId, circuit, channel
      ensures Valid() && circuit.View() == Recorded(circuit.config, old(circuit.View()), now)
      ensures channel.open == old(channel.open)
      ensures var trips := Trips(circuit.config, old(circuit.View()), now);
              && nextId == old(nextId) + (if trips then 1 else 0)
              && channel.sent == old(channel.sent)
                 + if trips && channel.open
                   then [Command(old(nextId), SignalInstruction(SignalValue(circuit.config, circuit.config.threshold)))] else []
    {
      var signal := circuit.RecordDeny(now);
      if signal.Some? {
        var id := NextFactId();
        var _ := channel.Send(Command(id, SignalInstruction(signal.value)));
      }
    }

    method Respond(requestId: FactId, result: JsonValue, error: Option<string>, channel: FactSender) returns (ok: bool)
      requires nextId < U64_SIZE
      modifies this`nextId, channel
      ensures nextId == old(nextId) + 1 && channel.open == old(channel.open) == ok
      ensures channel.sent == if ok then old(channel.sent) + [IoResponse(old(nextId), requestId, result, error)] else old(channel.sent)
    {
      var id := NextFactId();
      ok := channel.Send(IoResponse(id, requestId, result, error));
    }

    /** Try, and try again after a transient error, at most `MAX_RETRIES` times. */
    method DispatchWithRetries(a: Arrival) returns (result: JsonValue, error: Option<string>, attempt: nat)
      ensures attempt == FinalAttempt(parts, a.answers, 1)
      ensures (result, error) == match a.answers(attempt) case Ok(r) => (r, None) case Err(text) => (Null, Some(text))
    {
      attempt := 0;
      while true
        invariant attempt <= MAX_RETRIES && FinalAttempt(parts, a.answers, attempt + 1) == FinalAttempt(parts, a.answers, 1)
        decreases MAX_RETRIES + 1 - attempt
      {
        attempt := attempt + 1;
        match a.answers(attempt) {
          case Ok(r) =>
            return r, None, attempt;
          case Err(text) =>
            if attempt <= MAX_RETRIES && parts.retryable(text) {
              continue;
            }
            return Null, Some(text), attempt;
        }
      }
    }
  }
}
