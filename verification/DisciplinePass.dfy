/** What the rules do in one pass (evorule-tcb/src/transition.rs and executor.rs). Path lookup, the comparing
    domains, the values that `set` and `push` write and the parameters of an I/O request are arbitrary functions
    of the state. */
module DisciplinePass {
  import opened Base
  import opened Json
  import opened Discipline

  const MAX_TRANSFORM_RULES: nat := 128
  const MAX_META_INSTRUCTIONS: nat := 2048
  const MAX_BRANCH_DEPTH: nat := 64
  const MAX_DOMAIN_DEPTH: nat := 64

  /** The `__exec__` context. `set` writes inside the payload and `push` replaces the queue; nothing writes
      the instruction. */
  datatype State = State(instruction: JsonValue, payload: JsonValue, queue: JsonValue)

  datatype Outcome = Sat | Unsat | Missing

  datatype Fault =
    | BudgetExhausted | NestingTooDeep
    | FieldMissing(field: string) | FieldMistyped(field: string)
    | UnknownDomain(name: string) | UnknownInstruction(name: string)
    | Unresolved(path: string) | Failed(reason: string)

  datatype World = World(
    lookup: (State, string) -> Option<JsonValue>,
    resolve: (State, string) -> Option<JsonValue>,
    compare: (State, JsonValue) -> Result<Outcome, Fault>,
    setTo: (State, JsonValue) -> Result<JsonValue, Fault>,
    pushed: (State, JsonValue) -> Result<JsonValue, Fault>,
    request: (State, JsonValue) -> Result<JsonValue, Fault>)

  // ---------------------------------------------------------------- domains

  function NeedString(d: JsonValue, field: string): Result<string, Fault> {
    match Get(d, field)
    case None => Err(FieldMissing(field))
    case Some(String(s)) => Ok(s)
    case Some(_) => Err(FieldMistyped(field))
  }

  /** Present and not null: a null has been cleared. */
  predicate ExistsAt(w: World, st: State, path: string) {
    w.resolve(st, path).Some? && w.resolve(st, path).value != Null
  }

  function CurrentType(st: State): Option<string> {
    GetString(st.instruction, "type")
  }

  function FromBool(b: bool): Outcome {
    if b then Sat else Unsat
  }

  function EvalDomain(w: World, st: State, d: JsonValue, depth: nat): Result<Outcome, Fault>
    decreases d, 1
  {
    if depth > MAX_DOMAIN_DEPTH then Err(NestingTooDeep)
    else
      var kind :- NeedString(d, "type");
      match kind
      case "exists" => var p :- NeedString(d, "path"); Ok(FromBool(ExistsAt(w, st, p)))
      case "instruction" => var t :- NeedString(d, "instruction_type"); Ok(FromBool(CurrentType(st) == Some(t)))
      case "all" =>
        (match Get(d, "inner")
         case None => Err(FieldMissing("inner"))
         case Some(Array(_)) => EvalAll(w, st, d, 0, depth + 1)
         case Some(_) => Err(FieldMistyped("all.inner")))
      case "not" =>
        (match Get(d, "inner")
         case None => Err(FieldMissing("inner"))
         case Some(inner) => var o :- EvalDomain(w, st, inner, depth + 1); Ok(Negate(o)))
      case "eq" => w.compare(st, d)
      case "lt" => w.compare(st, d)
      case "in" => w.compare(st, d)
      case "has_fields" => w.compare(st, d)
      case other => Err(UnknownDomain(other))
  }

  /** Conjuncts from `i` on, up to the first that is not satisfied. */
  function EvalAll(w: World, st: State, d: JsonValue, i: nat, depth: nat): Result<Outcome, Fault>
    requires i <= |Inner(d)|
    decreases d, 0, |Inner(d)| - i
  {
    if i == |Inner(d)| then Ok(Sat)
    else
      var o :- EvalDomain(w, st, Inner(d)[i], depth);
      if o == Sat then EvalAll(w, st, d, i + 1, depth) else Ok(o)
  }

  function Negate(o: Outcome): Outcome {
    match o
    case Sat => Unsat
    case Unsat => Sat
    case Missing => Missing
  }

  /** A string starting with two underscores is a reference into the state; anything else is itself. */
  function ResolveOrLiteral(w: World, st: State, v: Option<JsonValue>): Result<JsonValue, Fault> {
    match v
    case None => Err(FieldMissing("value"))
    case Some(String(s)) =>
      if "__" <= s then
        (match w.lookup(st, s) case Some(found) => Ok(found) case None => Err(Unresolved(s)))
      else Ok(String(s))
    case Some(other) => Ok(other)
  }

  // ---------------------------------------------------------------- instructions

  datatype Signal = Continue(state: State) | IoRequired(params: JsonValue) | Halted(reason: string)

  /** An instruction that began to execute, and the state it began in. */
  datatype Event = Event(path: Path, node: JsonValue, state: State)

  datatype Run = Run(result: Result<Signal, Fault>, budget: nat, trace: seq<Event>)

  /** The result of an instruction that is not a branch. */
  function Simple(w: World, instr: JsonValue, st: State): Result<Signal, Fault> {
    match GetString(instr, "type")
    case None => Err(FieldMissing("type"))
    case Some("set") => var payload :- w.setTo(st, instr); Ok(Continue(st.(payload := payload)))
    case Some("push") => var queue :- w.pushed(st, instr); Ok(Continue(st.(queue := queue)))
    case Some("io_request") => var params :- w.request(st, instr); Ok(IoRequired(params))
    case Some("enforce") => Enforce(w, instr, st)
    case Some(other) => Err(UnknownInstruction(other))
  }

  function Enforce(w: World, instr: JsonValue, st: State): Result<Signal, Fault> {
    match Get(instr, "params")
    case None => Err(FieldMissing("params"))
    case Some(params) =>
      var domain :- ResolveOrLiteral(w, st, Get(params, "domain"));
      var o :- EvalDomain(w, st, domain, 0);
      if o != Sat then Ok(Continue(st))
      else
        match GetString(params, "reason")
        case Some(reason) => Ok(Halted(reason))
        case None => Err(FieldMissing("reason"))
  }

  /** The arm a branch takes. */
  function ArmTaken(w: World, instr: JsonValue, st: State, depth: nat): Result<Arm, Fault> {
    if depth >= MAX_BRANCH_DEPTH then Err(NestingTooDeep)
    else
      match Get(instr, "params")
      case None => Err(FieldMissing("params"))
      case Some(params) =>
        var domain :- ResolveOrLiteral(w, st, Get(params, "domain"));
        var o :- EvalDomain(w, st, domain, 0);
        Ok(if o == Sat then OnTrue else OnFalse)
  }

  /** One instruction, drawing on the budget shared by the whole pass. */
  function Exec(w: World, instr: JsonValue, path: Path, st: State, depth: nat, budget: nat): (r: Run)
    ensures r.budget <= budget
    decreases budget, 0
  {
    if budget == 0 then Run(Err(BudgetExhausted), 0, [])
    else
      var began := Event(path, instr, st);
      if NodeType(instr) == "branch" then
        match ArmTaken(w, instr, st, depth)
        case Err(fault) => Run(Err(fault), budget - 1, [began])
        case Ok(arm) =>
          var below := ExecArm(w, instr, arm, 0, path, st, depth + 1, budget - 1);
          Run(below.result, below.budget, [began] + below.trace)
      else Run(Simple(w, instr, st), budget - 1, [began])
  }

  /** The children of one arm from `j` on, until one of them does not continue. */
  function ExecArm(w: World, parent: JsonValue, arm: Arm, j: nat, path: Path, st: State, depth: nat, budget: nat): (r: Run)
    requires j <= |ChildrenOf(parent, arm)|
    ensures r.budget <= budget
    decreases budget, 1 + |ChildrenOf(parent, arm)| - j
  {
    if j == |ChildrenOf(parent, arm)| then Run(Ok(Continue(st)), budget, [])
    else
      var r := Exec(w, ChildrenOf(parent, arm)[j], Below(path, arm, j), st, depth, budget);
      if Continues(r) then
        var rest := ExecArm(w, parent, arm, j + 1, path, r.result.value.state, depth, r.budget);
        Run(rest.result, rest.budget, r.trace + rest.trace)
      else r
  }

  predicate Continues(r: Run) {
    r.result.Ok? && r.result.value.Continue?
  }

  // ---------------------------------------------------------------- the pass

  datatype Gate = Open(budget: nat) | Blocked(index: nat, reason: string) | Faulty(fault: Fault)

  /** Top-level `enforce` rules are all evaluated first, against the input state. */
  function FrontGate(w: World, rules: seq<JsonValue>, i: nat, st: State, budget: nat): Gate
    requires i <= |rules|
    decreases |rules| - i
  {
    if i == |rules| then Open(budget)
    else if NodeType(rules[i]) != "enforce" then FrontGate(w, rules, i + 1, st, budget)
    else
      var r := Exec(w, rules[i], Path(i, []), st, 0, budget);
      match r.result
      case Err(fault) => Faulty(fault)
      case Ok(Halted(reason)) => Blocked(i, reason)
      case Ok(_) => FrontGate(w, rules, i + 1, st, r.budget)
  }

  /** A top-level rule that got its turn, and the state it started from. */
  datatype Visit = Visit(top: nat, entry: State, run: Run)

  function Visits(w: World, rules: seq<JsonValue>, i: nat, st: State, budget: nat): seq<Visit>
    requires i <= |rules|
    decreases |rules| - i
  {
    if i == |rules| then []
    else if NodeType(rules[i]) == "enforce" then Visits(w, rules, i + 1, st, budget)
    else
      var r := Exec(w, rules[i], Path(i, []), st, 0, budget);
      [Visit(i, st, r)] + if Continues(r) then Visits(w, rules, i + 1, r.result.value.state, r.budget) else []
  }

  /** The visits of one pass over `rules` from the state `st`. */
  function Pass(w: World, rules: seq<JsonValue>, st: State): seq<Visit> {
    if |rules| > MAX_TRANSFORM_RULES then []
    else
      match FrontGate(w, rules, 0, st, MAX_META_INSTRUCTIONS)
      case Open(budget) => Visits(w, rules, 0, st, budget)
      case _ => []
  }

  // ---------------------------------------------------------------- traces

  /** A `set` or `push` among the first `k` events. */
  predicate MutatedBy(trace: seq<Event>, k: nat)
    requires k <= |trace|
  {
    exists i | 0 <= i < k :: IsMutating(trace[i].node)
  }

  predicate IsRequest(n: JsonValue) {
    NodeType(n) == "io_request"
  }

  predicate HasRequest(n: JsonValue)
    decreases n, 1
  {
    || IsRequest(n)
    || (NodeType(n) == "branch"
        && (RequestUpTo(n, OnTrue, |ChildrenOf(n, OnTrue)|) || RequestUpTo(n, OnFalse, |ChildrenOf(n, OnFalse)|)))
  }

  predicate RequestUpTo(n: JsonValue, arm: Arm, j: nat)
    requires j <= |ChildrenOf(n, arm)|
    decreases n, 0, j
  {
    j > 0 && (RequestUpTo(n, arm, j - 1) || HasRequest(ChildrenOf(n, arm)[j - 1]))
  }

  lemma {:induction false} MutatingUpToGrows(n: JsonValue, arm: Arm, i: nat, j: nat)
    requires i <= j <= |ChildrenOf(n, arm)| && MutatingUpTo(n, arm, i)
    ensures MutatingUpTo(n, arm, j)
    decreases j
  {
    if i < j {
      MutatingUpToGrows(n, arm, i, j - 1);
    }
  }

  lemma {:induction false} RequestUpToGrows(n: JsonValue, arm: Arm, i: nat, j: nat)
    requires i <= j <= |ChildrenOf(n, arm)| && RequestUpTo(n, arm, i)
    ensures RequestUpTo(n, arm, j)
    decreases j
  {
    if i < j {
      RequestUpToGrows(n, arm, i, j - 1);
    }
  }

  /** An event in the run of an instruction comes from its subtree: what ran is there to be seen. */
  lemma {:induction false} EventIsBelow(w: World, instr: JsonValue, path: Path, st: State, depth: nat, budget: nat, k: nat)
    requires k < |Exec(w, instr, path, st, depth, budget).trace|
    ensures var e := Exec(w, instr, path, st, depth, budget).trace[k];
            (IsMutating(e.node) ==> HasMutating(instr)) && (IsRequest(e.node) ==> HasRequest(instr))
    decreases budget, 0
  {
    if k > 0 {
      var arm := ArmTaken(w, instr, st, depth).value;
      ArmEventIsBelow(w, instr, arm, 0, path, st, depth + 1, budget - 1, k - 1);
    }
  }

  lemma {:induction false} ArmEventIsBelow(
      w: World, parent: JsonValue, arm: Arm, j: nat, path: Path, st: State, depth: nat, budget: nat, k: nat)
    requires j <= |ChildrenOf(parent, arm)|
    requires k < |ExecArm(w, parent, arm, j, path, st, depth, budget).trace|
    ensures var e := ExecArm(w, parent, arm, j, path, st, depth, budget).trace[k];
            var n := |ChildrenOf(parent, arm)|;
            (IsMutating(e.node) ==> MutatingUpTo(parent, arm, n)) && (IsRequest(e.node) ==> RequestUpTo(parent, arm, n))
    decreases budget, 1 + |ChildrenOf(parent, arm)| - j
  {
    var child := ChildrenOf(parent, arm)[j];
    var n := |ChildrenOf(parent, arm)|;
    var r := Exec(w, child, Below(path, arm, j), st, depth, budget);
    if k < |r.trace| {
      EventIsBelow(w, child, Below(path, arm, j), st, depth, budget, k);
      if HasMutating(child) {
        MutatingUpToGrows(parent, arm, j + 1, n);
      }
      if HasRequest(child) {
        RequestUpToGrows(parent, arm, j + 1, n);
      }
    } else {
      ArmEventIsBelow(w, parent, arm, j + 1, path, r.result.value.state, depth, r.budget, k - |r.trace|);
    }
  }
}
