/** The two JSON value types of the audit kernel and the conversions between them:
    `JsonValue` (evorule-tcb, integers only, signed and unsigned kept apart) and
    `Jv` (serde_json's `Value`, one number type that may also be a float). */
module Json {
  import opened Base

  datatype JsonValue =
    | Null
    | Bool(b: bool)
    | Integer(i: i64)
    | U64(u: u64)
    | String(s: string)
    | Array(items: seq<JsonValue>)
    | Object(fields: map<string, JsonValue>)

  /** serde_json's `Number`: an integer in the union of the i64 and u64 ranges, or a float. */
  type SerdeInt = n: int | I64_MIN <= n < U64_SIZE
  datatype Number = Whole(n: SerdeInt) | Float(bits: u64) {
    function AsI64(): Option<i64> {
      if Whole? && n <= I64_MAX then Some(n) else None
    }

    function AsU64(): Option<u64> {
      if Whole? && n >= 0 then Some(n) else None
    }
  }

  datatype Jv =
    | JNull
    | JBool(b: bool)
    | JNumber(num: Number)
    | JString(s: string)
    | JArray(items: seq<Jv>)
    | JObject(fields: map<string, Jv>)

  datatype ParseError =
    | FloatRejected
    | NotAnObject(what: string)
    | MissingField(ctx: string, key: string)
    | WrongType(ctx: string, key: string)
    | UnknownVariant(name: string)

  // ---------------------------------------------------------------- specification

  function ToSerde(v: JsonValue): Jv {
    match v
    case Null => JNull
    case Bool(b) => JBool(b)
    case Integer(i) => JNumber(Whole(i))
    case U64(u) => JNumber(Whole(u))
    case String(s) => JString(s)
    case Array(items) => JArray(seq(|items|, k requires 0 <= k < |items| => ToSerde(items[k])))
    case Object(fields) => JObject(map k | k in fields :: ToSerde(fields[k]))
  }

  function FromSerde(j: Jv): Result<JsonValue, ParseError> {
    match j
    case JNull => Ok(Null)
    case JBool(b) => Ok(Bool(b))
    case JNumber(num) =>
      if num.AsI64().Some? then Ok(Integer(num.AsI64().value))
      else if num.AsU64().Some? then Ok(U64(num.AsU64().value))
      else Err(FloatRejected)
    case JString(s) => Ok(String(s))
    case JArray(items) =>
      if forall k | 0 <= k < |items| :: FromSerde(items[k]).Ok?
      then Ok(Array(seq(|items|, k requires 0 <= k < |items| && FromSerde(items[k]).Ok? => FromSerde(items[k]).value)))
      else Err(FloatRejected)
    case JObject(fields) =>
      if forall k | k in fields :: FromSerde(fields[k]).Ok?
      then Ok(Object(map k | k in fields :: FromSerde(fields[k]).value))
      else Err(FloatRejected)
  }

  /** The number normal form: an unsigned value that fits i64 becomes a signed one, everywhere inside. */
  function Canonical(v: JsonValue): JsonValue {
    match v
    case U64(u) => if u <= I64_MAX then Integer(u) else v
    case Array(items) => Array(seq(|items|, k requires 0 <= k < |items| => Canonical(items[k])))
    case Object(fields) => Object(map k | k in fields :: Canonical(fields[k]))
    case _ => v
  }

  /** No float anywhere inside. */
  predicate FloatFree(j: Jv) {
    match j
    case JNumber(num) => num.Whole?
    case JArray(items) => forall k | 0 <= k < |items| :: FloatFree(items[k])
    case JObject(fields) => forall k | k in fields :: FloatFree(fields[k])
    case _ => true
  }

  // ---------------------------------------------------------------- what the conversion shows

  /** The serde value reads like the value: the same literals, the same items in order, the same keys. */
  predicate ReadsLike(j: Jv, v: JsonValue) {
    match (v, j)
    case (Null, JNull) => true
    case (Bool(b), JBool(c)) => b == c
    case (Integer(i), JNumber(num)) => num.Whole? && num.n == i
    case (U64(u), JNumber(num)) => num.Whole? && num.n == u
    case (String(s), JString(t)) => s == t
    case (Array(xs), JArray(ys)) => |xs| == |ys| && forall k | 0 <= k < |xs| :: ReadsLike(ys[k], xs[k])
    case (Object(xs), JObject(ys)) => xs.Keys == ys.Keys && forall k | k in xs :: ReadsLike(ys[k], xs[k])
    case _ => false
  }

  /** The conversion gives the one serde value that reads like its argument. */
  lemma {:induction false} ConversionReadsLike(v: JsonValue, j: Jv)
    ensures j == ToSerde(v) <==> ReadsLike(j, v)
  {
    match (v, j) {
      case (Array(xs), JArray(ys)) =>
        if |xs| == |ys| {
          forall k | 0 <= k < |xs|
            ensures ys[k] == ToSerde(xs[k]) <==> ReadsLike(ys[k], xs[k])
          {
            ConversionReadsLike(xs[k], ys[k]);
          }
          assert ToSerde(v).items == seq(|xs|, k requires 0 <= k < |xs| => ToSerde(xs[k]));
          assert (forall k | 0 <= k < |xs| :: ys[k] == ToSerde(xs[k])) <==> ys == ToSerde(v).items;
        }
      case (Object(xs), JObject(ys)) =>
        if xs.Keys == ys.Keys {
          forall k | k in xs
            ensures ys[k] == ToSerde(xs[k]) <==> ReadsLike(ys[k], xs[k])
          {
            ConversionReadsLike(xs[k], ys[k]);
          }
          assert (forall k | k in xs :: ys[k] == ToSerde(xs[k])) <==> ys == ToSerde(v).fields;
        }
      case _ =>
    }
  }

  // ---------------------------------------------------------------- the conversions as written

  /** `tcb_to_serde`: the object case fills a map entry by entry. */
  method TcbToSerde(v: JsonValue) returns (j: Jv)
    ensures j == ToSerde(v)
    decreases v
  {
    match v
    case Null => j := JNull;
    case Bool(b) => j := JBool(b);
    case Integer(i) => j := JNumber(Whole(i));
    case U64(u) => j := JNumber(Whole(u));
    case String(s) => j := JString(s);
    case Array(items) =>
      var out: seq<Jv> := [];
      for k := 0 to |items|
        invariant |out| == k && forall i | 0 <= i < k :: out[i] == ToSerde(items[i])
      {
        var item := TcbToSerde(items[k]);
        out := out + [item];
      }
      j := JArray(out);
    case Object(fields) =>
      var out: map<string, Jv> := map[];
      var rest := fields.Keys;
      while rest != {}
        invariant rest <= fields.Keys && out.Keys == fields.Keys - rest
        invariant forall k | k in out :: out[k] == ToSerde(fields[k])
        decreases |rest|
      {
        var k :| k in rest;
        var item := TcbToSerde(fields[k]);
        out, rest := out[k := item], rest - {k};
      }
      assert out == ToSerde(v).fields;
      j := JObject(out);
  }

  /** `serde_to_tcb`: stops at the first float it meets. */
  method SerdeToTcb(j: Jv) returns (r: Result<JsonValue, ParseError>)
    ensures r == FromSerde(j)
    decreases j
  {
    match j
    case JNull => r := Ok(Null);
    case JBool(b) => r := Ok(Bool(b));
    case JNumber(num) =>
      if num.AsI64().Some? {
        r := Ok(Integer(num.AsI64().value));
      } else if num.AsU64().Some? {
        r := Ok(U64(num.AsU64().value));
      } else {
        r := Err(FloatRejected);
      }
    case JString(s) => r := Ok(String(s));
    case JArray(items) =>
      var out: seq<JsonValue> := [];
      for k := 0 to |items|
        invariant |out| == k && forall i | 0 <= i < k :: FromSerde(items[i]) == Ok(out[i])
      {
        var item := SerdeToTcb(items[k]);
        if item.Err? {
          FailureIsAFloat(items[k]);
          return Err(item.error);
        }
        out := out + [item.value];
      }
      assert out == FromSerde(j).value.items;
      r := Ok(Array(out));
    case JObject(fields) =>
      var out: map<string, JsonValue> := map[];
      var rest := fields.Keys;
      while rest != {}
        invariant rest <= fields.Keys && out.Keys == fields.Keys - rest
        invariant forall k | k in out :: FromSerde(fields[k]) == Ok(out[k])
        decreases |rest|
      {
        var k :| k in rest;
        var item := SerdeToTcb(fields[k]);
        if item.Err? {
          FailureIsAFloat(fields[k]);
          return Err(item.error);
        }
        out, rest := out[k := item.value], rest - {k};
      }
      assert out == FromSerde(j).value.fields;
      r := Ok(Object(out));
  }

  // ---------------------------------------------------------------- properties

  lemma FailureIsAFloat(j: Jv)
    ensures FromSerde(j).Err? ==> FromSerde(j).error == FloatRejected
  {
  }

  /** Parsing accepts exactly the float-free values. */
  lemma {:induction false} AcceptsExactlyFloatFree(j: Jv)
    ensures FromSerde(j).Ok? <==> FloatFree(j)
  {
    match j
    case JArray(items) => forall k | 0 <= k < |items| { AcceptsExactlyFloatFree(items[k]); }
    case JObject(fields) => forall k | k in fields { AcceptsExactlyFloatFree(fields[k]); }
    case _ =>
  }

  /** Serialising then parsing gives the normal form back. */
  lemma {:induction false} SerdeRoundTrip(v: JsonValue)
    ensures FromSerde(ToSerde(v)) == Ok(Canonical(v))
  {
    match v
    case Array(items) =>
      forall k | 0 <= k < |items| { SerdeRoundTrip(items[k]); }
      assert FromSerde(ToSerde(v)).value.items == Canonical(v).items;
    case Object(fields) =>
      forall k | k in fields { SerdeRoundTrip(fields[k]); }
      assert FromSerde(ToSerde(v)).value.fields == Canonical(v).fields;
    case _ =>
  }

  /** Parsing then serialising gives the very same JSON back, and parsing only yields normal forms. */
  lemma {:induction false} ParseThenSerialise(j: Jv)
    requires FromSerde(j).Ok?
    ensures ToSerde(FromSerde(j).value) == j
    ensures Canonical(FromSerde(j).value) == FromSerde(j).value
  {
    var v := FromSerde(j).value;
    match j
    case JArray(items) =>
      forall k | 0 <= k < |items| { ParseThenSerialise(items[k]); }
      assert ToSerde(v).items == items;
      assert Canonical(v).items == v.items;
    case JObject(fields) =>
      forall k | k in fields { ParseThenSerialise(fields[k]); }
      assert ToSerde(v).fields == fields;
      assert Canonical(v).fields == v.fields;
    case _ =>
  }

  lemma {:induction false} CanonicalKeepsText(v: JsonValue)
    ensures ToSerde(Canonical(v)) == ToSerde(v)
  {
    SerdeRoundTrip(v);
    ParseThenSerialise(ToSerde(v));
  }

  /** Two values serialise alike exactly when their normal forms are equal. */
  lemma SameTextIffSameCanonical(v: JsonValue, w: JsonValue)
    ensures ToSerde(v) == ToSerde(w) <==> Canonical(v) == Canonical(w)
  {
    SerdeRoundTrip(v);
    SerdeRoundTrip(w);
    CanonicalKeepsText(v);
    CanonicalKeepsText(w);
  }
}
