/** The authoritative serialisation of facts (`fact_to_stable_json`), the display form
    (`to_json`), and the hand-written fail-closed parser (`fact_from_json`). */
module StableJson {
  import opened Base
  import opened Json
  import opened Facts

  type Obj = map<string, Jv>

  function Num(n: u64): Jv {
    JNumber(Whole(n))
  }

  // ---------------------------------------------------------------- stable serialisation

  /** An absent attribute is a missing key, never a null. */
  function AttrToStable(a: TraceDomainAttribution): Jv {
    var base := map["outcome" := JString(a.outcome)];
    var withReason := if a.missingReason.Some? then base["missing_reason" := JString(a.missingReason.value)] else base;
    JObject(if a.onMissing.Some? then withReason["on_missing" := JString(a.onMissing.value)] else withReason)
  }

  function HitToStable(h: TraceHit): Jv {
    var base := map["index" := Num(h.index), "instr_type" := JString(h.instrType), "hit" := JBool(h.hit)];
    JObject(if h.domainAttr.Some? then base["domain_attr" := AttrToStable(h.domainAttr.value)] else base)
  }

  function ErrorToStable(error: Option<string>): Jv {
    match error
    case None => JNull
    case Some(e) => JString(e)
  }

  function StableForm(f: Fact): Jv {
    match f
    case Command(id, instruction) =>
      JObject(map["type" := JString("Command"), "id" := Num(id), "instruction" := ToSerde(instruction)])
    case PayloadUpdate(id, path, value) =>
      JObject(map["type" := JString("PayloadUpdate"), "id" := Num(id), "path" := JString(path),
                  "value" := ToSerde(value)])
    case StateTransition(id, cause, payload, queue) =>
      JObject(map["type" := JString("StateTransition"), "id" := Num(id), "cause" := Num(cause),
                  "new_payload" := ToSerde(payload), "new_queue" := ToSerde(Array(queue))])
    case IoRequest(id, cause, ioType, params) =>
      JObject(map["type" := JString("IoRequest"), "id" := Num(id), "cause" := Num(cause),
                  "io_type" := JString(ioType), "params" := ToSerde(params)])
    case IoResponse(id, requestId, result, error) =>
      JObject(map["type" := JString("IoResponse"), "id" := Num(id), "request_id" := Num(requestId),
                  "result" := ToSerde(result), "error" := ErrorToStable(error)])
    case Stable(id, version) =>
      JObject(map["type" := JString("Stable"), "id" := Num(id), "version" := Num(version)])
    case Error(id, message) =>
      JObject(map["type" := JString("Error"), "id" := Num(id), "message" := JString(message)])
    case TransitionTrace(id, cause, hits) =>
      JObject(map["type" := JString("TransitionTrace"), "id" := Num(id), "cause" := Num(cause),
                  "rule_hits" := JArray(seq(|hits|, k requires 0 <= k < |hits| => HitToStable(hits[k])))])
    case Violation(id, cause, ruleIndex, reason, instruction) =>
      JObject(map["type" := JString("Violation"), "id" := Num(id), "cause" := Num(cause),
                  "rule_index" := Num(ruleIndex), "reason" := JString(reason), "instruction" := ToSerde(instruction)])
  }

  // ---------------------------------------------------------------- serialisation as written

  method TraceAttrToJson(a: TraceDomainAttribution) returns (j: Jv)
    ensures j == AttrToStable(a)
  {
    var o: Obj := map[];
    o := o["outcome" := JString(a.outcome)];
    if a.missingReason.Some? {
      o := o["missing_reason" := JString(a.missingReason.value)];
    }
    if a.onMissing.Some? {
      o := o["on_missing" := JString(a.onMissing.value)];
    }
    j := JObject(o);
  }

  method RuleHitsToJson(hits: seq<TraceHit>) returns (out: seq<Jv>)
    ensures |out| == |hits| && forall k | 0 <= k < |hits| :: out[k] == HitToStable(hits[k])
  {
    out := [];
    for k := 0 to |hits|
      invariant |out| == k && forall i | 0 <= i < k :: out[i] == HitToStable(hits[i])
    {
      var h := hits[k];
      var o: Obj := map[];
      o := o["index" := Num(h.index)];
      o := o["instr_type" := JString(h.instrType)];
      o := o["hit" := JBool(h.hit)];
      if h.domainAttr.Some? {
        var attr := TraceAttrToJson(h.domainAttr.value);
        o := o["domain_attr" := attr];
      }
      out := out + [JObject(o)];
    }
  }

  /** `fact_to_stable_json`: a map filled key by key. */
  method FactToStableJson(f: Fact) returns (j: Jv)
    ensures j == StableForm(f)
  {
    var o: Obj := map[];
    o := o["type" := JString(f.TypeName())];
    o := o["id" := Num(f.id)];
    match f {
      case Command(_, instruction) =>
        var v := TcbToSerde(instruction);
        o := o["instruction" := v];
      case PayloadUpdate(_, path, value) =>
        o := o["path" := JString(path)];
        var v := TcbToSerde(value);
        o := o["value" := v];
      case StateTransition(_, cause, payload, queue) =>
        o := o["cause" := Num(cause)];
        var v := TcbToSerde(payload);
        o := o["new_payload" := v];
        var q := TcbToSerde(Array(queue));
        o := o["new_queue" := q];
      case IoRequest(_, cause, ioType, params) =>
        o := o["cause" := Num(cause)];
        o := o["io_type" := JString(ioType)];
        var v := TcbToSerde(params);
        o := o["params" := v];
      case IoResponse(_, requestId, result, error) =>
        o := o["request_id" := Num(requestId)];
        var v := TcbToSerde(result);
        o := o["result" := v];
        o := o["error" := ErrorToStable(error)];
      case Stable(_, version) =>
        o := o["version" := Num(version)];
      case Error(_, message) =>
        o := o["message" := JString(message)];
      case TransitionTrace(_, cause, hits) =>
        o := o["cause" := Num(cause)];
        var out := RuleHitsToJson(hits);
        assert out == seq(|hits|, k requires 0 <= k < |hits| => HitToStable(hits[k]));
        o := o["rule_hits" := JArray(out)];
      case Violation(_, cause, ruleIndex, reason, instruction) =>
        o := o["cause" := Num(cause)];
        o := o["rule_index" := Num(ruleIndex)];
        o := o["reason" := JString(reason)];
        var v := TcbToSerde(instruction);
        o := o["instruction" := v];
    }
    j := JObject(o);
  }

  // ---------------------------------------------------------------- display form

  function AttrPairs(a: TraceDomainAttribution): map<string, JsonValue> {
    var base := map["outcome" := String(a.outcome)];
    var withReason := if a.missingReason.Some? then base["missing_reason" := String(a.missingReason.value)] else base;
    if a.onMissing.Some? then withReason["on_missing" := String(a.onMissing.value)] else withReason
  }

  function HitToJson(h: TraceHit): JsonValue {
    var base := map["index" := U64(h.index), "instr_type" := String(h.instrType), "hit" := Bool(h.hit)];
    Object(if h.domainAttr.Some? then base["domain_attr" := Object(AttrPairs(h.domainAttr.value))] else base)
  }

  function ToJson(f: Fact): JsonValue {
    match f
    case Command(id, instruction) =>
      Object(map["type" := String("Command"), "id" := U64(id), "instruction" := instruction])
    case PayloadUpdate(id, path, value) =>
      Object(map["type" := String("PayloadUpdate"), "id" := U64(id), "path" := String(path), "value" := value])
    case StateTransition(id, cause, payload, queue) =>
      Object(map["type" := String("StateTransition"), "id" := U64(id), "cause" := U64(cause),
                 "new_payload" := payload, "new_queue" := Array(queue)])
    case IoRequest(id, cause, ioType, params) =>
      Object(map["type" := String("IoRequest"), "id" := U64(id), "cause" := U64(cause),
                 "io_type" := String(ioType), "params" := params])
    case IoResponse(id, requestId, result, error) =>
      Object(map["type" := String("IoResponse"), "id" := U64(id), "request_id" := U64(requestId),
                 "result" := result,
                 "error" := if error.Some? then String(error.value) else Null])
    case Stable(id, version) =>
      Object(map["type" := String("Stable"), "id" := U64(id), "version" := U64(version)])
    case Error(id, message) =>
      Object(map["type" := String("Error"), "id" := U64(id), "message" := String(message)])
    case TransitionTrace(id, cause, hits) =>
      Object(map["type" := String("TransitionTrace"), "id" := U64(id), "cause" := U64(cause),
                 "rule_hits" := Array(seq(|hits|, k requires 0 <= k < |hits| => HitToJson(hits[k])))])
    case Violation(id, cause, ruleIndex, reason, instruction) =>
      Object(map["type" := String("Violation"), "id" := U64(id), "cause" := U64(cause),
                 "rule_index" := U64(ruleIndex), "reason" := String(reason), "instruction" := instruction])
  }

  // ---------------------------------------------------------------- parser

  function ObjOf(j: Jv, what: string): Result<Obj, ParseError> {
    if j.JObject? then Ok(j.fields) else Err(NotAnObject(what))
  }

  function Req(o: Obj, key: string, ctx: string): Result<Jv, ParseError> {
    if key in o then Ok(o[key]) else Err(MissingField(ctx, key))
  }

  function ReqU64(o: Obj, key: string, ctx: string): Result<u64, ParseError> {
    var j :- Req(o, key, ctx);
    if j.JNumber? && j.num.AsU64().Some? then Ok(j.num.AsU64().value) else Err(WrongType(ctx, key))
  }

  function ReqStr(o: Obj, key: string, ctx: string): Result<string, ParseError> {
    var j :- Req(o, key, ctx);
    if j.JString? then Ok(j.s) else Err(WrongType(ctx, key))
  }

  function ReqBool(o: Obj, key: string, ctx: string): Result<bool, ParseError> {
    var j :- Req(o, key, ctx);
    if j.JBool? then Ok(j.b) else Err(WrongType(ctx, key))
  }

  function ReqArray(o: Obj, key: string, ctx: string): Result<seq<Jv>, ParseError> {
    var j :- Req(o, key, ctx);
    if j.JArray? then Ok(j.items) else Err(WrongType(ctx, key))
  }

  function ReqJson(o: Obj, key: string, ctx: string): Result<JsonValue, ParseError> {
    var j :- Req(o, key, ctx);
    FromSerde(j)
  }

  function OptStrOrNull(o: Obj, key: string, ctx: string): Result<Option<string>, ParseError> {
    var j :- Req(o, key, ctx);
    match j
    case JNull => Ok(None)
    case JString(s) => Ok(Some(s))
    case _ => Err(WrongType(ctx, key))
  }

  function OptAttrStr(o: Obj, key: string, ctx: string): Result<Option<string>, ParseError> {
    if key !in o then Ok(None)
    else if o[key].JString? then Ok(Some(o[key].s))
    else Err(WrongType(ctx, key))
  }

  function AttrFromJson(j: Jv): Result<TraceDomainAttribution, ParseError> {
    var a :- ObjOf(j, "domain_attr");
    var outcome :- ReqStr(a, "outcome", "TraceDomainAttribution");
    var missingReason :- OptAttrStr(a, "missing_reason", "TraceDomainAttribution");
    var onMissing :- OptAttrStr(a, "on_missing", "TraceDomainAttribution");
    Ok(TraceDomainAttribution(outcome, missingReason, onMissing))
  }

  function HitFromJson(j: Jv): Result<TraceHit, ParseError> {
    var o :- ObjOf(j, "rule_hits");
    var attr: Option<TraceDomainAttribution> :-
      if "domain_attr" !in o then Ok(None)
      else
        var a :- AttrFromJson(o["domain_attr"]);
        Ok(Some(a));
    var index :- ReqU64(o, "index", "TraceHit");
    var instrType :- ReqStr(o, "instr_type", "TraceHit");
    var hit :- ReqBool(o, "hit", "TraceHit");
    Ok(TraceHit(index, instrType, hit, attr))
  }

  /** `iter().map(f).collect::<Result<Vec<_>, _>>()`: the first failure wins. */
  function ParseAll<T>(items: seq<Jv>, f: Jv -> Result<T, ParseError>): (r: Result<seq<T>, ParseError>)
    ensures r.Ok? <==> forall k | 0 <= k < |items| :: f(items[k]).Ok?
    ensures r.Ok? ==> |r.value| == |items| && forall k | 0 <= k < |items| :: f(items[k]) == Ok(r.value[k])
  {
    if items == [] then Ok([])
    else
      var head :- f(items[0]);
      var tail :- ParseAll(items[1..], f);
      Ok([head] + tail)
  }

  function CommandFrom(o: Obj, ctx: string): Result<Fact, ParseError> {
    var id :- ReqU64(o, "id", ctx);
    var instruction :- ReqJson(o, "instruction", ctx);
    Ok(Command(id, instruction))
  }

  function PayloadUpdateFrom(o: Obj, ctx: string): Result<Fact, ParseError> {
    var id :- ReqU64(o, "id", ctx);
    var path :- ReqStr(o, "path", ctx);
    var value :- ReqJson(o, "value", ctx);
    Ok(PayloadUpdate(id, path, value))
  }

  function StateTransitionFrom(o: Obj, ctx: string): Result<Fact, ParseError> {
    var id :- ReqU64(o, "id", ctx);
    var cause :- ReqU64(o, "cause", ctx);
    var payload :- ReqJson(o, "new_payload", ctx);
    var items :- ReqArray(o, "new_queue", ctx);
    var queue :- ParseAll(items, FromSerde);
    Ok(StateTransition(id, cause, payload, queue))
  }

  function IoRequestFrom(o: Obj, ctx: string): Result<Fact, ParseError> {
    var id :- ReqU64(o, "id", ctx);
    var cause :- ReqU64(o, "cause", ctx);
    var ioType :- ReqStr(o, "io_type", ctx);
    var params :- ReqJson(o, "params", ctx);
    Ok(IoRequest(id, cause, ioType, params))
  }

  function IoResponseFrom(o: Obj, ctx: string): Result<Fact, ParseError> {
    var id :- ReqU64(o, "id", ctx);
    var requestId :- ReqU64(o, "request_id", ctx);
    var result :- ReqJson(o, "result", ctx);
    var error :- OptStrOrNull(o, "error", ctx);
    Ok(IoResponse(id, requestId, result, error))
  }

  function StableFrom(o: Obj, ctx: string): Result<Fact, ParseError> {
    var id :- ReqU64(o, "id", ctx);
    var version :- ReqU64(o, "version", ctx);
    Ok(Stable(id, version))
  }

  function ErrorFrom(o: Obj, ctx: string): Result<Fact, ParseError> {
    var id :- ReqU64(o, "id", ctx);
    var message :- ReqStr(o, "message", ctx);
    Ok(Error(id, message))
  }

  function TransitionTraceFrom(o: Obj, ctx: string): Result<Fact, ParseError> {
    var id :- ReqU64(o, "id", ctx);
    var cause :- ReqU64(o, "cause", ctx);
    var items :- ReqArray(o, "rule_hits", ctx);
    var hits :- ParseAll(items, HitFromJson);
    Ok(TransitionTrace(id, cause, hits))
  }

  function ViolationFrom(o: Obj, ctx: string): Result<Fact, ParseError> {
    var id :- ReqU64(o, "id", ctx);
    var cause :- ReqU64(o, "cause", ctx);
    var ruleIndex :- ReqU64(o, "rule_index", ctx);
    var reason :- ReqStr(o, "reason", ctx);
    var instruction :- ReqJson(o, "instruction", ctx);
    Ok(Violation(id, cause, ruleIndex, reason, instruction))
  }

  function VariantFrom(ty: string, o: Obj, ctx: string): Result<Fact, ParseError> {
    match ty
    case "Command" => CommandFrom(o, ctx)
    case "PayloadUpdate" => PayloadUpdateFrom(o, ctx)
    case "StateTransition" => StateTransitionFrom(o, ctx)
    case "IoRequest" => IoRequestFrom(o, ctx)
    case "IoResponse" => IoResponseFrom(o, ctx)
    case "Stable" => StableFrom(o, ctx)
    case "Error" => ErrorFrom(o, ctx)
    case "TransitionTrace" => TransitionTraceFrom(o, ctx)
    case "Violation" => ViolationFrom(o, ctx)
    case _ => Err(UnknownVariant(ty))
  }

  function FactFromJson(j: Jv): Result<Fact, ParseError> {
    var o :- ObjOf(j, "fact");
    var ty :- ReqStr(o, "type", "fact");
    VariantFrom(ty, o, "Fact[" + ty + "]")
  }

  // ---------------------------------------------------------------- round trip

  lemma AttrRoundTrip(a: TraceDomainAttribution)
    ensures AttrFromJson(AttrToStable(a)) == Ok(a)
  {
  }

  lemma HitRoundTrip(h: TraceHit)
    ensures HitFromJson(HitToStable(h)) == Ok(h)
  {
    if h.domainAttr.Some? {
      AttrRoundTrip(h.domainAttr.value);
    }
  }

  /** The reader for the variant of `f`. */
  function ReaderFor(f: Fact, o: Obj, ctx: string): Result<Fact, ParseError> {
    match f
    case Command(_, _) => CommandFrom(o, ctx)
    case PayloadUpdate(_, _, _) => PayloadUpdateFrom(o, ctx)
    case StateTransition(_, _, _, _) => StateTransitionFrom(o, ctx)
    case IoRequest(_, _, _, _) => IoRequestFrom(o, ctx)
    case IoResponse(_, _, _, _) => IoResponseFrom(o, ctx)
    case Stable(_, _) => StableFrom(o, ctx)
    case Error(_, _) => ErrorFrom(o, ctx)
    case TransitionTrace(_, _, _) => TransitionTraceFrom(o, ctx)
    case Violation(_, _, _, _, _) => ViolationFrom(o, ctx)
  }

  lemma DispatchByName(f: Fact, o: Obj, ctx: string)
    ensures VariantFrom(f.TypeName(), o, ctx) == ReaderFor(f, o, ctx)
  {
  }

  lemma StateTransitionRoundTrip(f: Fact, ctx: string)
    requires f.StateTransition?
    ensures StateTransitionFrom(StableForm(f).fields, ctx) == Ok(CanonicalFact(f))
  {
    var items := ToSerde(Array(f.newQueue)).items;
    SerdeRoundTrip(f.newPayload);
    forall k | 0 <= k < |f.newQueue| { SerdeRoundTrip(f.newQueue[k]); }
    assert ParseAll(items, FromSerde).value == CanonicalQueue(f.newQueue);
  }

  lemma TransitionTraceRoundTrip(f: Fact, ctx: string)
    requires f.TransitionTrace?
    ensures TransitionTraceFrom(StableForm(f).fields, ctx) == Ok(f)
  {
    var items := StableForm(f).fields["rule_hits"].items;
    forall k | 0 <= k < |f.ruleHits| { HitRoundTrip(f.ruleHits[k]); }
    assert ParseAll(items, HitFromJson).value == f.ruleHits;
  }

  lemma IoRequestRoundTrip(f: Fact, ctx: string)
    requires f.IoRequest?
    ensures IoRequestFrom(StableForm(f).fields, ctx) == Ok(CanonicalFact(f))
  {
    SerdeRoundTrip(f.params);
  }

  lemma IoResponseRoundTrip(f: Fact, ctx: string)
    requires f.IoResponse?
    ensures IoResponseFrom(StableForm(f).fields, ctx) == Ok(CanonicalFact(f))
  {
    SerdeRoundTrip(f.result);
  }

  lemma ReaderRoundTrip(f: Fact, ctx: string)
    ensures ReaderFor(f, StableForm(f).fields, ctx) == Ok(CanonicalFact(f))
  {
    match f
    case Command(_, v) => SerdeRoundTrip(v);
    case PayloadUpdate(_, _, v) => SerdeRoundTrip(v);
    case StateTransition(_, _, _, _) => StateTransitionRoundTrip(f, ctx);
    case IoRequest(_, _, _, _) => IoRequestRoundTrip(f, ctx);
    case IoResponse(_, _, _, _) => IoResponseRoundTrip(f, ctx);
    case TransitionTrace(_, _, _) => TransitionTraceRoundTrip(f, ctx);
    case Violation(_, _, _, _, v) => SerdeRoundTrip(v);
    case _ =>
  }

  /** Parsing the stable form of any fact gives the fact back in number normal form. */
  lemma FactRoundTrip(f: Fact)
    ensures FactFromJson(StableForm(f)) == Ok(CanonicalFact(f))
  {
    DispatchByName(f, StableForm(f).fields, "Fact[" + f.TypeName() + "]");
    ReaderRoundTrip(f, "Fact[" + f.TypeName() + "]");
  }

  lemma CanonicalKeepsStable(f: Fact)
    ensures StableForm(CanonicalFact(f)) == StableForm(f)
  {
    match f
    case Command(_, v) => CanonicalKeepsText(v);
    case PayloadUpdate(_, _, v) => CanonicalKeepsText(v);
    case StateTransition(_, _, payload, queue) =>
      CanonicalKeepsText(payload);
      CanonicalKeepsText(Array(queue));
    case IoRequest(_, _, _, v) => CanonicalKeepsText(v);
    case IoResponse(_, _, v, _) => CanonicalKeepsText(v);
    case Violation(_, _, _, _, v) => CanonicalKeepsText(v);
    case _ =>
  }

  /** The stable form identifies a fact up to the number normal form, and nothing less. */
  lemma SameStableIffSameCanonical(f: Fact, g: Fact)
    ensures StableForm(f) == StableForm(g) <==> CanonicalFact(f) == CanonicalFact(g)
  {
    FactRoundTrip(f);
    FactRoundTrip(g);
    CanonicalKeepsStable(f);
    CanonicalKeepsStable(g);
  }

  // ---------------------------------------------------------------- parsing never invents

  /** `j` carries at least the content of `s`: unknown object keys are tolerated, nothing else differs. */
  predicate Carries(j: Jv, s: Jv)
    decreases s
  {
    match s
    case JObject(fields) =>
      j.JObject? && forall k | k in fields :: k in j.fields && Carries(j.fields[k], fields[k])
    case JArray(items) =>
      j.JArray? && |j.items| == |items| && forall k | 0 <= k < |items| :: Carries(j.items[k], items[k])
    case _ => j == s
  }

  lemma {:induction false} CarriesItself(j: Jv)
    ensures Carries(j, j)
  {
    match j
    case JArray(items) => forall k | 0 <= k < |items| { CarriesItself(items[k]); }
    case JObject(fields) => forall k | k in fields { CarriesItself(fields[k]); }
    case _ =>
  }

  /** A required JSON field that was read is carried unchanged and is in normal form. */
  lemma ReadJson(o: Obj, key: string, ctx: string)
    requires ReqJson(o, key, ctx).Ok?
    ensures key in o && Carries(o[key], ToSerde(ReqJson(o, key, ctx).value))
    ensures Canonical(ReqJson(o, key, ctx).value) == ReqJson(o, key, ctx).value
  {
    ParseThenSerialise(o[key]);
    CarriesItself(o[key]);
  }

  lemma ReadQueue(items: seq<Jv>)
    requires ParseAll(items, FromSerde).Ok?
    ensures var q := ParseAll(items, FromSerde).value;
            CanonicalQueue(q) == q && Carries(JArray(items), ToSerde(Array(q)))
  {
    var q := ParseAll(items, FromSerde).value;
    forall k | 0 <= k < |items|
      ensures Canonical(q[k]) == q[k] && Carries(items[k], ToSerde(q[k]))
    {
      ParseThenSerialise(items[k]);
      CarriesItself(items[k]);
    }
  }

  lemma ReadAttr(j: Jv)
    requires AttrFromJson(j).Ok?
    ensures Carries(j, AttrToStable(AttrFromJson(j).value))
  {
  }

  lemma ReadHit(j: Jv)
    requires HitFromJson(j).Ok?
    ensures Carries(j, HitToStable(HitFromJson(j).value))
  {
    if "domain_attr" in j.fields {
      ReadAttr(j.fields["domain_attr"]);
    }
  }

  lemma ReadHits(items: seq<Jv>)
    requires ParseAll(items, HitFromJson).Ok?
    ensures var hs := ParseAll(items, HitFromJson).value;
            Carries(JArray(items), JArray(seq(|hs|, k requires 0 <= k < |hs| => HitToStable(hs[k]))))
  {
    forall k | 0 <= k < |items| { ReadHit(items[k]); }
  }

  /** What a reader returns: in normal form, every field but the tag carried by the input. */
  ghost predicate FaithfulRead(o: Obj, f: Fact) {
    && CanonicalFact(f) == f
    && forall k | k in StableForm(f).fields && k != "type" :: k in o && Carries(o[k], StableForm(f).fields[k])
  }

  lemma ReadCommand(o: Obj, ctx: string)
    requires CommandFrom(o, ctx).Ok?
    ensures CommandFrom(o, ctx).value.Command? && FaithfulRead(o, CommandFrom(o, ctx).value)
  {
    ReadJson(o, "instruction", ctx);
  }

  lemma ReadPayloadUpdate(o: Obj, ctx: string)
    requires PayloadUpdateFrom(o, ctx).Ok?
    ensures PayloadUpdateFrom(o, ctx).value.PayloadUpdate? && FaithfulRead(o, PayloadUpdateFrom(o, ctx).value)
  {
    ReadJson(o, "value", ctx);
  }

  lemma ReadStateTransition(o: Obj, ctx: string)
    requires StateTransitionFrom(o, ctx).Ok?
    ensures StateTransitionFrom(o, ctx).value.StateTransition? && FaithfulRead(o, StateTransitionFrom(o, ctx).value)
  {
    ReadJson(o, "new_payload", ctx);
    ReadQueue(o["new_queue"].items);
  }

  lemma ReadIoRequest(o: Obj, ctx: string)
    requires IoRequestFrom(o, ctx).Ok?
    ensures IoRequestFrom(o, ctx).value.IoRequest? && FaithfulRead(o, IoRequestFrom(o, ctx).value)
  {
    ReadJson(o, "params", ctx);
  }

  lemma ReadIoResponse(o: Obj, ctx: string)
    requires IoResponseFrom(o, ctx).Ok?
    ensures IoResponseFrom(o, ctx).value.IoResponse? && FaithfulRead(o, IoResponseFrom(o, ctx).value)
  {
    ReadJson(o, "result", ctx);
  }

  lemma ReadStable(o: Obj, ctx: string)
    requires StableFrom(o, ctx).Ok?
    ensures StableFrom(o, ctx).value.Stable? && FaithfulRead(o, StableFrom(o, ctx).value)
  {
  }

  lemma ReadError(o: Obj, ctx: string)
    requires ErrorFrom(o, ctx).Ok?
    ensures ErrorFrom(o, ctx).value.Error? && FaithfulRead(o, ErrorFrom(o, ctx).value)
  {
  }

  lemma ReadTransitionTrace(o: Obj, ctx: string)
    requires TransitionTraceFrom(o, ctx).Ok?
    ensures TransitionTraceFrom(o, ctx).value.TransitionTrace? && FaithfulRead(o, TransitionTraceFrom(o, ctx).value)
  {
    ReadHits(o["rule_hits"].items);
  }

  lemma ReadViolation(o: Obj, ctx: string)
    requires ViolationFrom(o, ctx).Ok?
    ensures ViolationFrom(o, ctx).value.Violation? && FaithfulRead(o, ViolationFrom(o, ctx).value)
  {
    ReadJson(o, "instruction", ctx);
  }

  lemma DispatchFaithful(ty: string, o: Obj, ctx: string)
    requires VariantFrom(ty, o, ctx).Ok?
    ensures VariantFrom(ty, o, ctx).value.TypeName() == ty && FaithfulRead(o, VariantFrom(ty, o, ctx).value)
  {
    match ty
    case "Command" => ReadCommand(o, ctx);
    case "PayloadUpdate" => ReadPayloadUpdate(o, ctx);
    case "StateTransition" => ReadStateTransition(o, ctx);
    case "IoRequest" => ReadIoRequest(o, ctx);
    case "IoResponse" => ReadIoResponse(o, ctx);
    case "Stable" => ReadStable(o, ctx);
    case "Error" => ReadError(o, ctx);
    case "TransitionTrace" => ReadTransitionTrace(o, ctx);
    case "Violation" => ReadViolation(o, ctx);
    case _ =>
  }

  lemma TagField(f: Fact)
    ensures "type" in StableForm(f).fields && StableForm(f).fields["type"] == JString(f.TypeName())
  {
  }

  /** Fail-closed: whatever the parser accepts is a normal-form fact whose whole stable form is in the input. */
  lemma ParsedFactIsCarried(j: Jv)
    requires FactFromJson(j).Ok?
    ensures CanonicalFact(FactFromJson(j).value) == FactFromJson(j).value
    ensures Carries(j, StableForm(FactFromJson(j).value))
    ensures FactFromJson(StableForm(FactFromJson(j).value)) == FactFromJson(j)
  {
    var ty := ReqStr(j.fields, "type", "fact").value;
    DispatchFaithful(ty, j.fields, "Fact[" + ty + "]");
    TagField(FactFromJson(j).value);
    FactRoundTrip(FactFromJson(j).value);
  }

  // ---------------------------------------------------------------- display form agrees

  lemma SerdeInsert(m: map<string, JsonValue>, k: string, v: JsonValue)
    ensures ToSerde(Object(m[k := v])).fields == ToSerde(Object(m)).fields[k := ToSerde(v)]
  {
  }

  lemma SerdeThree(k1: string, v1: JsonValue, k2: string, v2: JsonValue, k3: string, v3: JsonValue)
    ensures ToSerde(Object(map[k1 := v1, k2 := v2, k3 := v3]))
         == JObject(map[k1 := ToSerde(v1), k2 := ToSerde(v2), k3 := ToSerde(v3)])
  {
    var m1 := map[k1 := v1];
    assert ToSerde(Object(m1)).fields == map[k1 := ToSerde(v1)];
    SerdeInsert(m1, k2, v2);
    SerdeInsert(m1[k2 := v2], k3, v3);
  }

  lemma HitDisplayAgrees(h: TraceHit)
    ensures ToSerde(HitToJson(h)) == HitToStable(h)
  {
    SerdeThree("index", U64(h.index), "instr_type", String(h.instrType), "hit", Bool(h.hit));
    if h.domainAttr.Some? {
      var a := h.domainAttr.value;
      var base := map["index" := U64(h.index), "instr_type" := String(h.instrType), "hit" := Bool(h.hit)];
      AttrDisplayAgrees(a);
      SerdeInsert(base, "domain_attr", Object(AttrPairs(a)));
    }
  }

  lemma AttrDisplayAgrees(a: TraceDomainAttribution)
    ensures ToSerde(Object(AttrPairs(a))) == AttrToStable(a)
  {
    var base := map["outcome" := String(a.outcome)];
    assert ToSerde(Object(base)).fields == map["outcome" := JString(a.outcome)];
    var withReason := base;
    if a.missingReason.Some? {
      SerdeInsert(base, "missing_reason", String(a.missingReason.value));
      withReason := base["missing_reason" := String(a.missingReason.value)];
    }
    if a.onMissing.Some? {
      SerdeInsert(withReason, "on_missing", String(a.onMissing.value));
    }
  }

  lemma SerdeFour(k1: string, v1: JsonValue, k2: string, v2: JsonValue, k3: string, v3: JsonValue,
                  k4: string, v4: JsonValue)
    ensures ToSerde(Object(map[k1 := v1, k2 := v2, k3 := v3, k4 := v4]))
         == JObject(map[k1 := ToSerde(v1), k2 := ToSerde(v2), k3 := ToSerde(v3), k4 := ToSerde(v4)])
  {
    SerdeThree(k1, v1, k2, v2, k3, v3);
    SerdeInsert(map[k1 := v1, k2 := v2, k3 := v3], k4, v4);
  }

  lemma SerdeFive(k1: string, v1: JsonValue, k2: string, v2: JsonValue, k3: string, v3: JsonValue,
                  k4: string, v4: JsonValue, k5: string, v5: JsonValue)
    ensures ToSerde(Object(map[k1 := v1, k2 := v2, k3 := v3, k4 := v4, k5 := v5]))
         == JObject(map[k1 := ToSerde(v1), k2 := ToSerde(v2), k3 := ToSerde(v3), k4 := ToSerde(v4), k5 := ToSerde(v5)])
  {
    SerdeFour(k1, v1, k2, v2, k3, v3, k4, v4);
    SerdeInsert(map[k1 := v1, k2 := v2, k3 := v3, k4 := v4], k5, v5);
  }

  lemma TransitionDisplayAgrees(id: FactId, cause: FactId, payload: JsonValue, queue: seq<JsonValue>)
    ensures var f := StateTransition(id, cause, payload, queue); ToSerde(ToJson(f)) == StableForm(f)
  {
    SerdeFive("type", String("StateTransition"), "id", U64(id), "cause", U64(cause),
              "new_payload", payload, "new_queue", Array(queue));
  }

  lemma RequestDisplayAgrees(id: FactId, cause: FactId, ioType: string, params: JsonValue)
    ensures var f := IoRequest(id, cause, ioType, params); ToSerde(ToJson(f)) == StableForm(f)
  {
    SerdeFive("type", String("IoRequest"), "id", U64(id), "cause", U64(cause), "io_type", String(ioType), "params", params);
  }

  lemma ResponseDisplayAgrees(id: FactId, requestId: FactId, result: JsonValue, error: Option<string>)
    ensures var f := IoResponse(id, requestId, result, error); ToSerde(ToJson(f)) == StableForm(f)
  {
    SerdeFive("type", String("IoResponse"), "id", U64(id), "request_id", U64(requestId),
              "result", result, "error", if error.Some? then String(error.value) else Null);
  }

  lemma ViolationDisplayAgrees(id: FactId, cause: FactId, ruleIndex: u64, reason: string, instruction: JsonValue)
    ensures var f := Violation(id, cause, ruleIndex, reason, instruction); ToSerde(ToJson(f)) == StableForm(f)
  {
    SerdeFive("type", String("Violation"), "id", U64(id), "cause", U64(cause),
              "rule_index", U64(ruleIndex), "reason", String(reason));
    SerdeInsert(map["type" := String("Violation"), "id" := U64(id), "cause" := U64(cause),
                    "rule_index" := U64(ruleIndex), "reason" := String(reason)], "instruction", instruction);
  }

  lemma TraceDisplayAgrees(id: FactId, cause: FactId, hits: seq<TraceHit>)
    ensures var f := TransitionTrace(id, cause, hits); ToSerde(ToJson(f)) == StableForm(f)
  {
    var shown := Array(seq(|hits|, k requires 0 <= k < |hits| => HitToJson(hits[k])));
    forall k | 0 <= k < |hits|
      ensures ToSerde(HitToJson(hits[k])) == HitToStable(hits[k])
    {
      HitDisplayAgrees(hits[k]);
    }
    assert ToSerde(shown).items == StableForm(TransitionTrace(id, cause, hits)).fields["rule_hits"].items;
    SerdeFour("type", String("TransitionTrace"), "id", U64(id), "cause", U64(cause), "rule_hits", shown);
  }

  /** Printing the display form gives the stable form, key for key. */
  lemma {:induction false} DisplayAgreesWithStable(f: Fact)
    ensures ToSerde(ToJson(f)) == StableForm(f)
  {
    match f
    case Command(id, v) => SerdeThree("type", String("Command"), "id", U64(id), "instruction", v);
    case PayloadUpdate(id, path, v) =>
      SerdeFour("type", String("PayloadUpdate"), "id", U64(id), "path", String(path), "value", v);
    case StateTransition(id, cause, payload, queue) =>
      TransitionDisplayAgrees(id, cause, payload, queue);
    case IoRequest(id, cause, ioType, params) => RequestDisplayAgrees(id, cause, ioType, params);
    case IoResponse(id, requestId, result, error) => ResponseDisplayAgrees(id, requestId, result, error);
    case Stable(id, version) => SerdeThree("type", String("Stable"), "id", U64(id), "version", U64(version));
    case Error(id, message) => SerdeThree("type", String("Error"), "id", U64(id), "message", String(message));
    case TransitionTrace(id, cause, hits) => TraceDisplayAgrees(id, cause, hits);
    case Violation(id, cause, ruleIndex, reason, instruction) =>
      ViolationDisplayAgrees(id, cause, ruleIndex, reason, instruction);
  }
}
