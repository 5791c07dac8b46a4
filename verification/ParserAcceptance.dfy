/** Which documents the hand-written parser accepts (evid-verify-core/src/parse.rs), read off their fields alone. */
module ParserAcceptance {
  import opened Base
  import opened Json
  import opened StableJson

  predicate HasU64(o: Obj, key: string) {
    key in o && o[key].JNumber? && o[key].num.Whole? && o[key].num.n >= 0
  }

  predicate HasText(o: Obj, key: string) {
    key in o && o[key].JString?
  }

  predicate HasBool(o: Obj, key: string) {
    key in o && o[key].JBool?
  }

  /** A value without floats anywhere inside. */
  predicate HasValue(o: Obj, key: string) {
    key in o && FloatFree(o[key])
  }

  /** The field may be missing; if it is there it is a text, so a null is refused. */
  predicate TextIfAny(o: Obj, key: string) {
    key in o ==> o[key].JString?
  }

  predicate AttrAccepted(j: Jv) {
    j.JObject? && HasText(j.fields, "outcome")
    && TextIfAny(j.fields, "missing_reason") && TextIfAny(j.fields, "on_missing")
  }

  predicate HitAccepted(j: Jv) {
    && j.JObject? && ("domain_attr" in j.fields ==> AttrAccepted(j.fields["domain_attr"]))
    && HasU64(j.fields, "index") && HasText(j.fields, "instr_type") && HasBool(j.fields, "hit")
  }

  predicate HasHits(o: Obj, key: string) {
    key in o && o[key].JArray? && forall k | 0 <= k < |o[key].items| :: HitAccepted(o[key].items[k])
  }

  /** The tag names one of the nine kinds, and every field of that kind is there and of its type. Other fields
      are not looked at. */
  predicate Accepted(j: Jv) {
    && j.JObject? && HasText(j.fields, "type") && HasU64(j.fields, "id")
    && FieldsAccepted(j.fields["type"].s, j.fields)
  }

  predicate FieldsAccepted(kind: string, o: Obj) {
    match kind
    case "Command" => HasValue(o, "instruction")
    case "PayloadUpdate" => HasText(o, "path") && HasValue(o, "value")
    case "StateTransition" =>
      HasU64(o, "cause") && HasValue(o, "new_payload") && HasValue(o, "new_queue") && o["new_queue"].JArray?
    case "IoRequest" => HasU64(o, "cause") && HasText(o, "io_type") && HasValue(o, "params")
    case "IoResponse" =>
      HasU64(o, "request_id") && HasValue(o, "result") && "error" in o && (o["error"].JNull? || o["error"].JString?)
    case "Stable" => HasU64(o, "version")
    case "Error" => HasText(o, "message")
    case "TransitionTrace" => HasU64(o, "cause") && HasHits(o, "rule_hits")
    case "Violation" =>
      HasU64(o, "cause") && HasU64(o, "rule_index") && HasText(o, "reason") && HasValue(o, "instruction")
    case _ => false
  }

  lemma ValueIffFloatFree(o: Obj, key: string, ctx: string)
    ensures ReqJson(o, key, ctx).Ok? <==> HasValue(o, key)
  {
    if key in o {
      AcceptsExactlyFloatFree(o[key]);
    }
  }

  lemma QueueIffFloatFree(items: seq<Jv>)
    ensures ParseAll(items, FromSerde).Ok? <==> FloatFree(JArray(items))
  {
    forall k | 0 <= k < |items|
      ensures FromSerde(items[k]).Ok? <==> FloatFree(items[k])
    {
      AcceptsExactlyFloatFree(items[k]);
    }
  }

  lemma HitIff(j: Jv)
    ensures HitFromJson(j).Ok? <==> HitAccepted(j)
  {
  }

  lemma HitsIff(items: seq<Jv>)
    ensures ParseAll(items, HitFromJson).Ok? <==> forall k | 0 <= k < |items| :: HitAccepted(items[k])
  {
    forall k | 0 <= k < |items|
      ensures HitFromJson(items[k]).Ok? <==> HitAccepted(items[k])
    {
      HitIff(items[k]);
    }
  }

  lemma CommandIff(o: Obj, ctx: string)
    ensures CommandFrom(o, ctx).Ok? <==> HasU64(o, "id") && FieldsAccepted("Command", o)
  {
    ValueIffFloatFree(o, "instruction", ctx);
  }

  lemma PayloadUpdateIff(o: Obj, ctx: string)
    ensures PayloadUpdateFrom(o, ctx).Ok? <==> HasU64(o, "id") && FieldsAccepted("PayloadUpdate", o)
  {
    ValueIffFloatFree(o, "value", ctx);
  }

  lemma StateTransitionIff(o: Obj, ctx: string)
    ensures StateTransitionFrom(o, ctx).Ok? <==> HasU64(o, "id") && FieldsAccepted("StateTransition", o)
  {
    ValueIffFloatFree(o, "new_payload", ctx);
    if "new_queue" in o && o["new_queue"].JArray? {
      QueueIffFloatFree(o["new_queue"].items);
    }
  }

  lemma IoRequestIff(o: Obj, ctx: string)
    ensures IoRequestFrom(o, ctx).Ok? <==> HasU64(o, "id") && FieldsAccepted("IoRequest", o)
  {
    ValueIffFloatFree(o, "params", ctx);
  }

  lemma IoResponseIff(o: Obj, ctx: string)
    ensures IoResponseFrom(o, ctx).Ok? <==> HasU64(o, "id") && FieldsAccepted("IoResponse", o)
  {
    ValueIffFloatFree(o, "result", ctx);
  }

  lemma TransitionTraceIff(o: Obj, ctx: string)
    ensures TransitionTraceFrom(o, ctx).Ok? <==> HasU64(o, "id") && FieldsAccepted("TransitionTrace", o)
  {
    if "rule_hits" in o && o["rule_hits"].JArray? {
      HitsIff(o["rule_hits"].items);
    }
  }

  lemma ViolationIff(o: Obj, ctx: string)
    ensures ViolationFrom(o, ctx).Ok? <==> HasU64(o, "id") && FieldsAccepted("Violation", o)
  {
    ValueIffFloatFree(o, "instruction", ctx);
  }

  lemma VariantIff(kind: string, o: Obj, ctx: string)
    ensures VariantFrom(kind, o, ctx).Ok? <==> HasU64(o, "id") && FieldsAccepted(kind, o)
  {
    match kind
    case "Command" => CommandIff(o, ctx);
    case "PayloadUpdate" => PayloadUpdateIff(o, ctx);
    case "StateTransition" => StateTransitionIff(o, ctx);
    case "IoRequest" => IoRequestIff(o, ctx);
    case "IoResponse" => IoResponseIff(o, ctx);
    case "TransitionTrace" => TransitionTraceIff(o, ctx);
    case "Violation" => ViolationIff(o, ctx);
    case _ =>
  }

  /** A document is accepted exactly when its tag is known and every field of that kind is there and of its type. */
  lemma AcceptsExactly(j: Jv)
    ensures FactFromJson(j).Ok? <==> Accepted(j)
  {
    if j.JObject? && HasText(j.fields, "type") {
      var kind := j.fields["type"].s;
      VariantIff(kind, j.fields, "Fact[" + kind + "]");
    }
  }
}
