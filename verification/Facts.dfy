/** Facts, the atomic records of the audit chain (evorule-audit-chain/src/fact.rs). */
module Facts {
  import opened Base
  import opened Json

  type FactId = u64

  datatype TraceDomainAttribution = TraceDomainAttribution(
    outcome: string, missingReason: Option<string>, onMissing: Option<string>)

  datatype TraceHit = TraceHit(
    index: u64, instrType: string, hit: bool, domainAttr: Option<TraceDomainAttribution>)

  datatype Fact =
    | Command(id: FactId, instruction: JsonValue)
    | PayloadUpdate(id: FactId, path: string, value: JsonValue)
    | StateTransition(id: FactId, cause: FactId, newPayload: JsonValue, newQueue: seq<JsonValue>)
    | IoRequest(id: FactId, cause: FactId, ioType: string, params: JsonValue)
    | IoResponse(id: FactId, requestId: FactId, result: JsonValue, error: Option<string>)
    | Stable(id: FactId, version: u64)
    | Error(id: FactId, message: string)
    | TransitionTrace(id: FactId, cause: FactId, ruleHits: seq<TraceHit>)
    | Violation(id: FactId, cause: FactId, ruleIndex: u64, reason: string, instruction: JsonValue)
  {
    function TypeName(): string {
      match this
      case Command(_, _) => "Command"
      case PayloadUpdate(_, _, _) => "PayloadUpdate"
      case StateTransition(_, _, _, _) => "StateTransition"
      case IoRequest(_, _, _, _) => "IoRequest"
      case IoResponse(_, _, _, _) => "IoResponse"
      case Stable(_, _) => "Stable"
      case Error(_, _) => "Error"
      case TransitionTrace(_, _, _) => "TransitionTrace"
      case Violation(_, _, _, _, _) => "Violation"
    }
  }

  /** The auditor's notion of a causal parent (evorule-governance/src/auditor.rs, `extract_cause`):
      a `TransitionTrace` and a `Violation` carry a cause too, but it is not followed. */
  function ExtractCause(f: Fact): Option<FactId> {
    match f
    case StateTransition(_, cause, _, _) => Some(cause)
    case IoRequest(_, cause, _, _) => Some(cause)
    case IoResponse(_, requestId, _, _) => Some(requestId)
    case _ => None
  }

  function CanonicalQueue(q: seq<JsonValue>): seq<JsonValue> {
    seq(|q|, k requires 0 <= k < |q| => Canonical(q[k]))
  }

  /** A fact with every JSON value inside it in number normal form. */
  function CanonicalFact(f: Fact): Fact {
    match f
    case Command(id, instruction) => Command(id, Canonical(instruction))
    case PayloadUpdate(id, path, value) => PayloadUpdate(id, path, Canonical(value))
    case StateTransition(id, cause, payload, queue) =>
      StateTransition(id, cause, Canonical(payload), CanonicalQueue(queue))
    case IoRequest(id, cause, ioType, params) => IoRequest(id, cause, ioType, Canonical(params))
    case IoResponse(id, requestId, result, error) => IoResponse(id, requestId, Canonical(result), error)
    case Violation(id, cause, ruleIndex, reason, instruction) =>
      Violation(id, cause, ruleIndex, reason, Canonical(instruction))
    case _ => f
  }
}
