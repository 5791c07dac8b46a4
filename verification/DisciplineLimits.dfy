/** Each hypothesis of the soundness theorem is needed: three families of rule sets whose I/O request is listed as
    not preceded by a state change, and yet is issued after one, in every world in which the `set` has the effect
    named. Each is then shown in a world that reads paths as the source does and refuses what it refuses. */
module DisciplineLimits {
  import opened Base
  import opened Json
  import opened Discipline
  import opened DisciplinePass
  import opened DisciplineSound
  import opened DisciplineExact
  import opened ExecPaths

  // ---------------------------------------------------------------- small rules

  function SetNode(attr: string, value: JsonValue, domain: Option<JsonValue>): JsonValue {
    var params := map["attr" := String(attr), "operation" := String("set"), "value" := value];
    Object(map["type" := String("set"),
               "params" := Object(if domain.Some? then params["domain" := domain.value] else params)])
  }

  function IoNode(ioType: string): JsonValue {
    Object(map["type" := String("io_request"), "params" := Object(map["io_type" := String(ioType)])])
  }

  function Branch(domain: JsonValue, onTrue: seq<JsonValue>, onFalse: seq<JsonValue>): JsonValue {
    Object(map["type" := String("branch"),
               "params" := Object(map["domain" := domain, "on_true" := Array(onTrue), "on_false" := Array(onFalse)])])
  }

  function Exists(path: string): JsonValue {
    Object(map["type" := String("exists"), "path" := String(path)])
  }

  function Not(inner: JsonValue): JsonValue {
    Object(map["type" := String("not"), "inner" := inner])
  }

  function IsType(name: string): JsonValue {
    Object(map["type" := String("instruction"), "instruction_type" := String(name)])
  }

  lemma LeafShapes(attr: string, value: JsonValue, domain: Option<JsonValue>, ioType: string)
    ensures IsSet(SetNode(attr, value, domain)) && DomainOf(SetNode(attr, value, domain)) == domain
    ensures IsIo(IoNode(ioType))
  {
  }

  lemma BranchShape(domain: JsonValue, onTrue: seq<JsonValue>, onFalse: seq<JsonValue>)
    ensures var b := Branch(domain, onTrue, onFalse);
            && NodeType(b) == "branch" && DomainOf(b) == Some(domain)
            && ChildrenOf(b, OnTrue) == onTrue && ChildrenOf(b, OnFalse) == onFalse
  {
  }

  lemma ExistsFacts(path: string)
    ensures NodeType(Exists(path)) == "exists"
    ensures TargetsOf(Exists(path)) == {} && PathsOf(Exists(path), false) == Paths({path}, {})
    ensures TargetsOf(Not(Exists(path))) == {} && PathsOf(Not(Exists(path)), false) == Paths({}, {path})
  {
  }

  lemma TypeFacts(name: string)
    ensures TargetsOf(IsType(name)) == {name} && PathsOf(IsType(name), false) == NO_PATHS
  {
  }

  lemma ExistsEval(w: World, st: State, path: string)
    ensures EvalDomain(w, st, Exists(path), 0) == Ok(FromBool(ExistsAt(w, st, path)))
    ensures EvalDomain(w, st, Not(Exists(path)), 0) == Ok(FromBool(!ExistsAt(w, st, path)))
  {
    assert EvalDomain(w, st, Exists(path), 1) == Ok(FromBool(ExistsAt(w, st, path)));
  }

  lemma TypeEval(w: World, st: State, name: string)
    ensures EvalDomain(w, st, IsType(name), 0) == Ok(FromBool(CurrentType(st) == Some(name)))
  {
  }

  lemma BranchTakes(w: World, domain: JsonValue, t: seq<JsonValue>, f: seq<JsonValue>, st: State, sat: bool)
    requires domain.Object? && EvalDomain(w, st, domain, 0) == Ok(FromBool(sat))
    requires (if sat then t else f) != []
    ensures Takes(w, Branch(domain, t, f), st, if sat then OnTrue else OnFalse)
  {
    BranchShape(domain, t, f);
  }

  // ---------------------------------------------------------------- the analysis of the families

  /** Only the sets of the first rule, and only the request of the second. */
  lemma SetBranchShape(domain: JsonValue, t: seq<JsonValue>, f: seq<JsonValue>)
    requires AllSets(t) && AllSets(f)
    ensures var a := Branch(domain, t, f); !HasRequest(a) && (GuardsMutation(a) <==> f == [])
  {
    BranchShape(domain, t, f);
    SetsMutate(Branch(domain, t, f), OnTrue, |t|);
    SetsMutate(Branch(domain, t, f), OnFalse, |f|);
  }

  lemma IoBranchShape(domain: JsonValue, io: JsonValue)
    requires IsIo(io)
    ensures var b := Branch(domain, [io], []); !HasMutating(b) && GuardsRequest(b)
  {
    BranchShape(domain, [io], []);
    IoRequests(Branch(domain, [io], []), OnTrue, 1);
    IoRequests(Branch(domain, [io], []), OnFalse, 0);
  }

  lemma ExistsPairExcluded(path: string, t: seq<JsonValue>, f: seq<JsonValue>, io: JsonValue)
    ensures var a, b := Branch(Exists(path), t, f), Branch(Not(Exists(path)), [io], []);
            !Compatible(a, b) && !TypesClash(a, b) && ClashPaths(a, b) == {path}
  {
    BranchShape(Exists(path), t, f);
    BranchShape(Not(Exists(path)), [io], []);
    ExistsFacts(path);
    var a, b := Branch(Exists(path), t, f), Branch(Not(Exists(path)), [io], []);
    assert FactsOf(a) == TopFacts({}, Paths({path}, {})) && FactsOf(b) == TopFacts({}, Paths({}, {path}));
    assert path in ClashPaths(a, b);
    ExcludedByTypesOrPaths(a, b);
  }

  /** The first rule sets under `exists path` or its negation, whichever holds, and leaves the path missing: the
      second rule requests. */
  lemma ExistsPairLoses(w: World, path: string, t: seq<JsonValue>, f: seq<JsonValue>, setter: JsonValue, io: JsonValue,
                        st: State, after: State)
    requires IsSet(setter) && IsIo(io) && SetLeads(w, st, setter, after) && w.request(after, io).Ok?
    requires (if ExistsAt(w, st, path) then t else f) == [setter] && !ExistsAt(w, after, path)
    ensures Loses(w, [Branch(Exists(path), t, f), Branch(Not(Exists(path)), [io], [])], st)
  {
    var a, b := Branch(Exists(path), t, f), Branch(Not(Exists(path)), [io], []);
    var sat := ExistsAt(w, st, path);
    var arm := if sat then OnTrue else OnFalse;
    BranchShape(Exists(path), t, f);
    BranchShape(Not(Exists(path)), [io], []);
    ExistsEval(w, st, path);
    ExistsEval(w, after, path);
    BranchTakes(w, Exists(path), t, f, st, sat);
    BranchTakes(w, Not(Exists(path)), [io], [], after, true);
    assert ChildrenOf(a, arm) == [setter];
    SetBranchChanges(w, a, arm, Path(0, []), st, after);
    var r := Exec(w, a, Path(0, []), st, 0, MAX_META_INSTRUCTIONS);
    IoBranchRequests(w, b, OnTrue, Path(1, []), after, r.budget);
    ChangeThenRequest(w, a, b, st, after);
  }

  lemma ExistsIsSimple(path: string, t: seq<JsonValue>, f: seq<JsonValue>)
    ensures SimpleBranch(Branch(Exists(path), t, f)) && SimpleBranch(Branch(Not(Exists(path)), t, f))
  {
    BranchShape(Exists(path), t, f);
    BranchShape(Not(Exists(path)), t, f);
    ExistsFacts(path);
    assert Conjunction(Exists(path), 0) && Conjunction(Not(Exists(path)), 0);
  }

  lemma OnePathPairExact(a: JsonValue, b: JsonValue, path: string, fixed: string -> bool)
    requires SetRule(a) && IoRule(b) && Excluded([a, b], 0, 1) && !OnlyOutside(a)
    requires GuardsMutation(a) && GuardsRequest(b) && !TypesClash(a, b) && ClashPaths(a, b) == {path}
    ensures NeverLoses([a, b], fixed) <==> fixed(path)
  {
    assert PairOk(a, b, fixed) <==> fixed(path) by {
      assert path in ClashPaths(a, b);
    }
    ExactForPairs(a, b, fixed);
  }

  lemma SetUnderExists(path: string, setter: JsonValue)
    requires IsSet(setter)
    ensures var a := Branch(Exists(path), [setter], []); SetRule(a) && HasMutating(a) && GuardsMutation(a) && !OnlyOutside(a)
  {
    var a := Branch(Exists(path), [setter], []);
    BranchShape(Exists(path), [setter], []);
    ExistsIsSimple(path, [setter], []);
    assert SetsOn(a, OnTrue) && SetsOn(a, OnFalse);
    SetRuleShape(a);
  }

  lemma IoUnderAbsent(path: string, io: JsonValue)
    requires IsIo(io)
    ensures var b := Branch(Not(Exists(path)), [io], []); IoRule(b) && HasRequest(b) && GuardsRequest(b)
  {
    var b := Branch(Not(Exists(path)), [io], []);
    BranchShape(Not(Exists(path)), [io], []);
    ExistsIsSimple(path, [io], []);
    assert AllIo(ChildrenOf(b, OnTrue)) && AllIo(ChildrenOf(b, OnFalse));
    IoRuleShape(b);
  }

  /** The exact condition on the most common pair: set where a path exists, request where it does not. No change is
      ever lost exactly when the path is fixed. */
  lemma ExistsPairExact(path: string, setter: JsonValue, io: JsonValue, fixed: string -> bool)
    requires IsSet(setter) && IsIo(io)
    ensures NeverLoses([Branch(Exists(path), [setter], []), Branch(Not(Exists(path)), [io], [])], fixed) <==> fixed(path)
  {
    SetUnderExists(path, setter);
    IoUnderAbsent(path, io);
    ExistsPairExcluded(path, [setter], [], io);
    OnePathPairExact(Branch(Exists(path), [setter], []), Branch(Not(Exists(path)), [io], []), path, fixed);
  }

  // ---------------------------------------------------------------- the three families

  /** Effects under `on_false`: the first rule changes state exactly when its domain fails. The path it speaks of
      stays missing throughout, and the second rule is guarded. */
  lemma OnFalseEffectsLoseState(w: World, path: string, setter: JsonValue, io: JsonValue, st: State, after: State)
    requires IsSet(setter) && IsIo(io) && SetLeads(w, st, setter, after) && w.request(after, io).Ok?
    requires !ExistsAt(w, st, path) && !ExistsAt(w, after, path)
    ensures var a, b := Branch(Exists(path), [], [setter]), Branch(Not(Exists(path)), [io], []);
            && NoMarkedRequest([a, b]) && Loses(w, [a, b], st)
            && !GuardsMutation(a) && GuardsRequest(b) && PathStays(w, a, b, st, after)
  {
    var a, b := Branch(Exists(path), [], [setter]), Branch(Not(Exists(path)), [io], []);
    SetBranchShape(Exists(path), [], [setter]);
    IoBranchShape(Not(Exists(path)), io);
    ExistsPairExcluded(path, [], [setter], io);
    PairUnmarked(a, b);
    ExistsPairLoses(w, path, [], [setter], setter, io, st, after);
    assert path in ClashPaths(a, b);
  }

  /** A path that changes: the first rule clears the very path it required. Both rules are guarded. */
  lemma ClearedPathLosesState(w: World, path: string, setter: JsonValue, io: JsonValue, st: State, after: State)
    requires IsSet(setter) && IsIo(io) && SetLeads(w, st, setter, after) && w.request(after, io).Ok?
    requires ExistsAt(w, st, path) && !ExistsAt(w, after, path)
    ensures var a, b := Branch(Exists(path), [setter], []), Branch(Not(Exists(path)), [io], []);
            && NoMarkedRequest([a, b]) && Loses(w, [a, b], st)
            && GuardsMutation(a) && GuardsRequest(b) && !PathStays(w, a, b, st, after)
  {
    var a, b := Branch(Exists(path), [setter], []), Branch(Not(Exists(path)), [io], []);
    SetBranchShape(Exists(path), [setter], []);
    IoBranchShape(Not(Exists(path)), io);
    ExistsPairExcluded(path, [setter], [], io);
    PairUnmarked(a, b);
    ExistsPairLoses(w, path, [setter], [], setter, io, st, after);
  }

  /** A domain on a rule that is not a branch: the analysis reads it, but nothing evaluates it. The second rule is
      guarded, and the exclusion is by type. */
  lemma IgnoredDomainLosesState(w: World, name: string, other: string, setter: JsonValue, io: JsonValue, st: State, after: State)
    requires name != other && CurrentType(st) == Some(other)
    requires IsSet(setter) && DomainOf(setter) == Some(IsType(name)) && IsIo(io)
    requires SetLeads(w, st, setter, after) && w.request(after, io).Ok?
    ensures var b := Branch(IsType(other), [io], []);
            && NoMarkedRequest([setter, b]) && Loses(w, [setter, b], st)
            && !GuardsMutation(setter) && GuardsRequest(b) && TypesClash(setter, b)
  {
    var b := Branch(IsType(other), [io], []);
    IoBranchShape(IsType(other), io);
    BranchShape(IsType(other), [io], []);
    TypeFacts(name);
    TypeFacts(other);
    assert FactsOf(setter).provable == {name} && FactsOf(b).provable == {other};
    assert name !in FactsOf(b).provable;
    PairUnmarked(setter, b);
    OneSet(w, setter, Path(0, []), st, after, 0, MAX_META_INSTRUCTIONS);
    var r := Exec(w, setter, Path(0, []), st, 0, MAX_META_INSTRUCTIONS);
    assert IsMutating(r.trace[0].node);
    TypeEval(w, after, other);
    BranchTakes(w, IsType(other), [io], [], after, true);
    IoBranchRequests(w, b, OnTrue, Path(1, []), after, r.budget);
    ChangeThenRequest(w, setter, b, st, after);
  }

  // ---------------------------------------------------------------- a world that refuses what the source refuses

  /** A name that can stand in a path as it is. */
  predicate PlainName(name: string) {
    name != [] && forall k | 0 <= k < |name| :: !Special(name[k])
  }

  /** What `set` writes when it sets one field of the payload; every other use of it fails here. */
  function SetField(st: State, n: JsonValue): Result<JsonValue, Fault> {
    match Get(n, "params")
    case None => Err(FieldMissing("params"))
    case Some(params) =>
      if Get(params, "attr").None? then Err(FieldMissing("attr"))
      else if GetString(params, "operation").None? then Err(FieldMissing("operation"))
      else if Get(params, "value").None? then Err(FieldMissing("value"))
      else
        var attr, value := GetString(params, "attr"), Get(params, "value").value;
        if attr.Some? && PlainName(attr.value) && !("__" <= attr.value) && !value.String?
          && GetString(params, "operation") == Some("set") && st.payload.Object?
        then Ok(Object(st.payload.fields[attr.value := value]))
        else Err(Failed("not a plain field"))
  }

  /** A request with its parameters, or the refusal of one that names no kind of I/O. */
  function PlainRequest(st: State, n: JsonValue): Result<JsonValue, Fault> {
    match Get(n, "params")
    case None => Err(FieldMissing("params"))
    case Some(params) => if GetString(params, "io_type").Some? then Ok(params) else Err(FieldMissing("io_type"))
  }

  const ROOT: string := "__exec__"

  /** Paths are resolved as in the source. */
  const FIELDS: World := World(
    (st: State, p) => Resolve(Object(map[ROOT := ExecObject(st)]), p),
    (st: State, p) => ResolveExec(st, p),
    (st, d) => Ok(Missing),
    (st: State, n) => SetField(st, n),
    (st: State, n) => Err(Failed("no queue")),
    (st: State, n) => PlainRequest(st, n))

  lemma FieldsIsStrict()
    ensures Strict(FIELDS) && RealPaths(FIELDS)
  {
  }

  /** In particular a `set` without `attr` and a request without `io_type` end the pass with the source's error. */
  lemma FieldsRefusesEmptyParams(st: State, path: Path, depth: nat, budget: nat)
    requires budget > 0
    ensures var bare := Object(map["type" := String("set"), "params" := Object(map[])]);
            Exec(FIELDS, bare, path, st, depth, budget).result == Err(FieldMissing("attr"))
    ensures var bare := Object(map["type" := String("io_request"), "params" := Object(map[])]);
            Exec(FIELDS, bare, path, st, depth, budget).result == Err(FieldMissing("io_type"))
  {
  }

  lemma PlainPairRoute(front: string, name: string)
    requires PlainName(front) && PlainName(name)
    ensures Route(front + "." + name) == Some([Field(front), Field(name)])
  {
    var route := [Field(front), Field(name)];
    EscapedPlain(front);
    EscapedPlain(name);
    PathRoundTrip(route);
    assert route[1..] == [Field(name)];
    assert PathText(route) == front + ("." + name) == front + "." + name;
    assert (front + "." + name)[|front + "." + name| - 1] == name[|name| - 1];
  }

  lemma FollowPair(v: JsonValue, front: string, name: string)
    ensures Follow(v, [Field(front), Field(name)])
         == match Get(v, front) case None => None case Some(inner) => Get(inner, name)
  {
    var route := [Field(front), Field(name)];
    assert route[1..] == [Field(name)] && route[1..][1..] == [];
    if Get(v, front).Some? {
      assert Follow(Get(v, front).value, route[1..]) == Get(Get(v, front).value, name);
    }
  }

  /** A path to a field of the payload finds that field. */
  lemma PayloadField(st: State, name: string)
    requires PlainName(name)
    ensures ResolveExec(st, "payload" + "." + name) == Get(st.payload, name)
  {
    PlainPairRoute("payload", name);
    FollowPair(ExecObject(st), "payload", name);
    assert ("payload" + "." + name)[0] == 'p' && EXEC_PREFIX[0] == '_';
  }

  /** Setting a plain field of an object payload writes that field. */
  lemma SettingLeads(st: State, attr: string, value: JsonValue, domain: Option<JsonValue>)
    requires st.payload.Object? && PlainName(attr) && !("__" <= attr) && !value.String?
    ensures SetLeads(FIELDS, st, SetNode(attr, value, domain), st.(payload := Object(st.payload.fields[attr := value])))
  {
    LeafShapes(attr, value, domain, "");
  }

  /** The three families in that world: rule sets that mark nothing, and lose what the `set` wrote. */
  lemma OnFalseLosesForReal(fields: map<string, JsonValue>, name: string, attr: string, ioType: string, st: State)
    requires PlainName(name) && PlainName(attr) && name != attr && !("__" <= attr)
    requires st.payload == Object(fields) && name !in fields
    ensures var path := "payload" + "." + name;
            var rules := [Branch(Exists(path), [], [SetNode(attr, Bool(true), None)]),
                          Branch(Not(Exists(path)), [IoNode(ioType)], [])];
            NoMarkedRequest(rules) && Loses(FIELDS, rules, st)
  {
    var after := st.(payload := Object(fields[attr := Bool(true)]));
    SettingLeads(st, attr, Bool(true), None);
    LeafShapes(attr, Bool(true), None, ioType);
    PayloadField(st, name);
    PayloadField(after, name);
    OnFalseEffectsLoseState(FIELDS, "payload" + "." + name, SetNode(attr, Bool(true), None), IoNode(ioType), st, after);
  }

  lemma ClearingLosesForReal(fields: map<string, JsonValue>, name: string, ioType: string, st: State)
    requires PlainName(name) && !("__" <= name)
    requires st.payload == Object(fields) && name in fields && fields[name] != Null
    ensures var path := "payload" + "." + name;
            var rules := [Branch(Exists(path), [SetNode(name, Null, None)], []),
                          Branch(Not(Exists(path)), [IoNode(ioType)], [])];
            NoMarkedRequest(rules) && Loses(FIELDS, rules, st)
  {
    var after := st.(payload := Object(fields[name := Null]));
    SettingLeads(st, name, Null, None);
    LeafShapes(name, Null, None, ioType);
    PayloadField(st, name);
    PayloadField(after, name);
    ClearedPathLosesState(FIELDS, "payload" + "." + name, SetNode(name, Null, None), IoNode(ioType), st, after);
  }

  lemma IgnoredDomainLosesForReal(fields: map<string, JsonValue>, name: string, other: string, attr: string, ioType: string, st: State)
    requires name != other && CurrentType(st) == Some(other)
    requires PlainName(attr) && !("__" <= attr) && st.payload == Object(fields)
    ensures var rules := [SetNode(attr, Bool(true), Some(IsType(name))), Branch(IsType(other), [IoNode(ioType)], [])];
            NoMarkedRequest(rules) && Loses(FIELDS, rules, st)
  {
    var node := SetNode(attr, Bool(true), Some(IsType(name)));
    SettingLeads(st, attr, Bool(true), Some(IsType(name)));
    LeafShapes(attr, Bool(true), Some(IsType(name)), ioType);
    IgnoredDomainLosesState(FIELDS, name, other, node, IoNode(ioType), st, st.(payload := Object(fields[attr := Bool(true)])));
  }
}
