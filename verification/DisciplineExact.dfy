/** How far the same-pass analysis can be trusted: for every pair of simple rules that it takes to exclude each
    other, exactly when it is sound. Where it is not there is a world, and a state, in which an I/O request is
    issued after a state change although the analysis marks nothing. */
module DisciplineExact {
  import opened Base
  import opened Json
  import opened Discipline
  import opened DisciplinePass
  import opened DisciplineSound

  // ---------------------------------------------------------------- instructions the source does not refuse

  function ParamsOf(n: JsonValue): JsonValue {
    match Get(n, "params")
    case Some(params) => params
    case None => Null
  }

  /** A `set` that misses none of the parameters it needs. */
  predicate IsSet(n: JsonValue) {
    && NodeType(n) == "set"
    && Get(ParamsOf(n), "attr").Some? && GetString(ParamsOf(n), "operation").Some? && Get(ParamsOf(n), "value").Some?
  }

  /** An `io_request` that names its kind of I/O. */
  predicate IsIo(n: JsonValue) {
    NodeType(n) == "io_request" && GetString(ParamsOf(n), "io_type").Some?
  }

  /** The world refuses every `set` and `io_request` that misses a parameter, as the source does. */
  ghost predicate Strict(w: World) {
    forall st: State, n: JsonValue :: RefusesIncomplete(w, st, n)
  }

  predicate RefusesIncomplete(w: World, st: State, n: JsonValue) {
    && (NodeType(n) == "set" && w.setTo(st, n).Ok? ==> IsSet(n))
    && (NodeType(n) == "io_request" && w.request(st, n).Ok? ==> IsIo(n))
  }

  // ---------------------------------------------------------------- a request after a state change

  /** Event `k` of visit `t` is an I/O request that ends the pass, after a `set` or `push`: that change is lost. */
  predicate LosesAt(vs: seq<Visit>, t: nat, k: nat) {
    && t < |vs| && k < |vs[t].run.trace| && IsRequest(vs[t].run.trace[k].node) && MutatedBefore(vs, t, k)
    && vs[t].run.result.Ok? && vs[t].run.result.value.IoRequired?
  }

  ghost predicate Loses(w: World, rules: seq<JsonValue>, st: State) {
    exists t: nat, k: nat :: LosesAt(Pass(w, rules, st), t, k)
  }

  /** No change is ever lost, in any world that is strict and settles the `fixed` paths by the instruction. */
  ghost predicate NeverLoses(rules: seq<JsonValue>, fixed: string -> bool) {
    forall w: World, st: State | Strict(w) && Respects(w, fixed) :: !Loses(w, rules, st)
  }

  // ---------------------------------------------------------------- what the analysis says of such a pair

  lemma {:induction false} UnmarkedBelow(nd: Node)
    requires !nd.precededByMutating && !HasMutating(nd.node)
    ensures forall n | n in Walked(nd) :: !n.precededByMutating
    decreases nd.node, 1
  {
    if NodeType(nd.node) == "branch" {
      UnmarkedArm(nd, OnTrue, |ChildrenOf(nd.node, OnTrue)|);
      UnmarkedArm(nd, OnFalse, |ChildrenOf(nd.node, OnFalse)|);
    }
  }

  lemma {:induction false} UnmarkedArm(nd: Node, arm: Arm, j: nat)
    requires j <= |ChildrenOf(nd.node, arm)| && !nd.precededByMutating && !MutatingUpTo(nd.node, arm, j)
    ensures forall n | n in WalkedUpTo(nd, arm, j) :: !n.precededByMutating
    decreases nd.node, 0, j
  {
    if j > 0 {
      UnmarkedArm(nd, arm, j - 1);
      UnmarkedBelow(ChildNode(nd, arm, j - 1));
    }
  }

  lemma {:induction false} NoRequestBelow(nd: Node)
    requires !HasRequest(nd.node)
    ensures forall n | n in Walked(nd) :: !IsRequest(n.node)
    decreases nd.node, 1
  {
    if NodeType(nd.node) == "branch" {
      NoRequestInArm(nd, OnTrue, |ChildrenOf(nd.node, OnTrue)|);
      NoRequestInArm(nd, OnFalse, |ChildrenOf(nd.node, OnFalse)|);
    }
  }

  lemma {:induction false} NoRequestInArm(nd: Node, arm: Arm, j: nat)
    requires j <= |ChildrenOf(nd.node, arm)| && !RequestUpTo(nd.node, arm, j)
    ensures forall n | n in WalkedUpTo(nd, arm, j) :: !IsRequest(n.node)
    decreases nd.node, 0, j
  {
    if j > 0 {
      NoRequestInArm(nd, arm, j - 1);
      NoRequestBelow(ChildNode(nd, arm, j - 1));
    }
  }

  /** Of two rules that are taken to exclude each other, the first without requests and the second without state
      changes, nothing is marked. */
  lemma PairUnmarked(a: JsonValue, b: JsonValue)
    requires !HasRequest(a) && !HasMutating(b) && !Compatible(a, b)
    ensures NoMarkedRequest([a, b])
  {
    var rules := [a, b];
    assert !MutatesBefore(rules, 1) by {
      assert !MutatesWith(rules, 0, 1);
    }
    NoRequestBelow(Root(rules, 0));
    UnmarkedBelow(Root(rules, 1));
    assert Flattened(rules, 2) == Walked(Root(rules, 0)) + Walked(Root(rules, 1)) by {
      assert Flattened(rules, 0) == [] && Flattened(rules, 1) == Walked(Root(rules, 0));
    }
  }

  // ---------------------------------------------------------------- passes over two rules

  /** Two rules that are not top-level `enforce`: the second starts where the first left off. */
  lemma TwoVisits(w: World, a: JsonValue, b: JsonValue, st: State)
    requires NodeType(a) != "enforce" && NodeType(b) != "enforce"
    requires Continues(Exec(w, a, Path(0, []), st, 0, MAX_META_INSTRUCTIONS))
    ensures var r := Exec(w, a, Path(0, []), st, 0, MAX_META_INSTRUCTIONS);
            var st2 := r.result.value.state;
            Pass(w, [a, b], st) == [Visit(0, st, r), Visit(1, st2, Exec(w, b, Path(1, []), st2, 0, r.budget))]
  {
    var rules := [a, b];
    var r := Exec(w, a, Path(0, []), st, 0, MAX_META_INSTRUCTIONS);
    var st2 := r.result.value.state;
    assert FrontGate(w, rules, 2, st, MAX_META_INSTRUCTIONS) == Open(MAX_META_INSTRUCTIONS);
    assert FrontGate(w, rules, 1, st, MAX_META_INSTRUCTIONS) == Open(MAX_META_INSTRUCTIONS);
    assert FrontGate(w, rules, 0, st, MAX_META_INSTRUCTIONS) == Open(MAX_META_INSTRUCTIONS);
    var second := Exec(w, b, Path(1, []), st2, 0, r.budget);
    assert Visits(w, rules, 1, st2, r.budget) == [Visit(1, st2, second)];
  }

  /** The run changed state, and carries on from `after` with enough budget left. */
  predicate Changed(r: Run, after: State) {
    Continues(r) && r.result.value.state == after && r.budget >= 2 && MutatedBy(r.trace, |r.trace|)
  }

  /** The run reached an I/O request and ended with it. */
  predicate Requested(r: Run) {
    && r.result.Ok? && r.result.value.IoRequired? && r.trace != []
    && IsRequest(r.trace[|r.trace| - 1].node)
  }

  lemma ChangeThenRequest(w: World, a: JsonValue, b: JsonValue, st: State, after: State)
    requires NodeType(a) != "enforce" && NodeType(b) != "enforce"
    requires var r := Exec(w, a, Path(0, []), st, 0, MAX_META_INSTRUCTIONS);
             Changed(r, after) && Requested(Exec(w, b, Path(1, []), after, 0, r.budget))
    ensures Loses(w, [a, b], st)
  {
    TwoVisits(w, a, b, st);
    var vs := Pass(w, [a, b], st);
    assert Mutates(vs[0]);
    assert LosesAt(vs, 1, |vs[1].run.trace| - 1);
  }

  // ---------------------------------------------------------------- rules made of one kind of leaf

  /** The branch takes the arm, and there is something on it. */
  predicate Takes(w: World, rule: JsonValue, st: State, arm: Arm) {
    NodeType(rule) == "branch" && ArmTaken(w, rule, st, 0) == Ok(arm) && ChildrenOf(rule, arm) != []
  }

  predicate AllSets(ns: seq<JsonValue>) {
    forall i | 0 <= i < |ns| :: IsSet(ns[i])
  }

  predicate AllIo(ns: seq<JsonValue>) {
    forall i | 0 <= i < |ns| :: IsIo(ns[i])
  }

  /** From `st` on, the `set`s from the `j`-th on succeed, and the state is `after` behind each of them. */
  predicate SetsTo(w: World, ns: seq<JsonValue>, j: nat, st: State, after: State) {
    j < |ns| ==> SetLeads(w, st, ns[j], after) && forall i | j < i < |ns| :: SetLeads(w, after, ns[i], after)
  }

  predicate SetLeads(w: World, st: State, n: JsonValue, after: State) {
    w.setTo(st, n).Ok? && st.(payload := w.setTo(st, n).value) == after
  }

  lemma OneSet(w: World, n: JsonValue, path: Path, st: State, after: State, depth: nat, budget: nat)
    requires IsSet(n) && SetLeads(w, st, n, after) && budget > 0
    ensures Exec(w, n, path, st, depth, budget) == Run(Ok(Continue(after)), budget - 1, [Event(path, n, st)])
  {
  }

  lemma ArmStep(w: World, parent: JsonValue, arm: Arm, j: nat, path: Path, st: State, depth: nat, budget: nat, after: State)
    requires j < |ChildrenOf(parent, arm)| && budget > 0
    requires var child := ChildrenOf(parent, arm)[j]; IsSet(child) && SetLeads(w, st, child, after)
    ensures var rest := ExecArm(w, parent, arm, j + 1, path, after, depth, budget - 1);
            ExecArm(w, parent, arm, j, path, st, depth, budget)
            == Run(rest.result, rest.budget, [Event(Below(path, arm, j), ChildrenOf(parent, arm)[j], st)] + rest.trace)
  {
    OneSet(w, ChildrenOf(parent, arm)[j], Below(path, arm, j), st, after, depth, budget);
  }

  lemma ArmEnd(w: World, parent: JsonValue, arm: Arm, path: Path, st: State, depth: nat, budget: nat)
    ensures ExecArm(w, parent, arm, |ChildrenOf(parent, arm)|, path, st, depth, budget) == Run(Ok(Continue(st)), budget, [])
  {
  }

  /** The arm ran `n` more instructions, all of them `set`, and left `after`. */
  predicate RanSets(r: Run, after: State, n: nat, budget: nat) {
    r.result == Ok(Continue(after)) && r.budget + n == budget && (n > 0 ==> MutatedBy(r.trace, |r.trace|))
  }

  /** One more `set` in front of the rest of the arm. */
  lemma SetThenRest(
      w: World, parent: JsonValue, arm: Arm, j: nat, path: Path, st: State, after: State, depth: nat, budget: nat, rest: Run, n: nat)
    returns (r: Run)
    requires j < |ChildrenOf(parent, arm)| && budget > 0
    requires IsSet(ChildrenOf(parent, arm)[j]) && SetLeads(w, st, ChildrenOf(parent, arm)[j], after)
    requires rest == ExecArm(w, parent, arm, j + 1, path, after, depth, budget - 1) && RanSets(rest, after, n, budget - 1)
    ensures r == ExecArm(w, parent, arm, j, path, st, depth, budget) && RanSets(r, after, n + 1, budget)
  {
    var first := Event(Below(path, arm, j), ChildrenOf(parent, arm)[j], st);
    r := Run(rest.result, rest.budget, [first] + rest.trace);
    MutatesAtFront([first], rest.trace);
    ArmStep(w, parent, arm, j, path, st, depth, budget, after);
  }

  lemma NextSet(w: World, ns: seq<JsonValue>, j: nat, st: State, after: State)
    requires j < |ns| && AllSets(ns) && SetsTo(w, ns, j, st, after)
    ensures IsSet(ns[j]) && SetLeads(w, st, ns[j], after) && SetsTo(w, ns, j + 1, after, after)
  {
  }

  lemma {:induction false} SetArm(
      w: World, parent: JsonValue, arm: Arm, j: nat, path: Path, st: State, after: State, depth: nat, budget: nat)
    returns (r: Run)
    requires j <= |ChildrenOf(parent, arm)| && AllSets(ChildrenOf(parent, arm))
    requires SetsTo(w, ChildrenOf(parent, arm), j, st, after) && (j == |ChildrenOf(parent, arm)| ==> st == after)
    requires budget >= |ChildrenOf(parent, arm)| - j
    ensures r == ExecArm(w, parent, arm, j, path, st, depth, budget)
    ensures RanSets(r, after, |ChildrenOf(parent, arm)| - j, budget)
    decreases |ChildrenOf(parent, arm)| - j
  {
    var ns := ChildrenOf(parent, arm);
    if j == |ns| {
      ArmEnd(w, parent, arm, path, st, depth, budget);
      r := Run(Ok(Continue(st)), budget, []);
    } else {
      NextSet(w, ns, j, st, after);
      var rest := SetArm(w, parent, arm, j + 1, path, after, after, depth, budget - 1);
      r := SetThenRest(w, parent, arm, j, path, st, after, depth, budget, rest, |ns| - j - 1);
    }
  }

  lemma MutatesAtFront(first: seq<Event>, rest: seq<Event>)
    requires first != [] && IsMutating(first[0].node)
    ensures MutatedBy(first + rest, |first + rest|)
  {
    assert (first + rest)[0] == first[0];
  }

  lemma MutatesBehind(first: Event, rest: seq<Event>)
    requires MutatedBy(rest, |rest|)
    ensures MutatedBy([first] + rest, |rest| + 1)
  {
    var i :| 0 <= i < |rest| && IsMutating(rest[i].node);
    assert ([first] + rest)[i + 1] == rest[i];
  }

  /** Fits the budget of a pass, with room for another branch. */
  predicate Short(ns: seq<JsonValue>) {
    |ns| + 3 <= MAX_META_INSTRUCTIONS
  }

  lemma SetBranchChanges(w: World, rule: JsonValue, arm: Arm, path: Path, st: State, after: State)
    requires Takes(w, rule, st, arm) && AllSets(ChildrenOf(rule, arm)) && Short(ChildrenOf(rule, arm))
    requires SetsTo(w, ChildrenOf(rule, arm), 0, st, after)
    ensures Changed(Exec(w, rule, path, st, 0, MAX_META_INSTRUCTIONS), after)
  {
    var below := SetArm(w, rule, arm, 0, path, st, after, 1, MAX_META_INSTRUCTIONS - 1);
    MutatesBehind(Event(path, rule, st), below.trace);
  }

  lemma OneIo(w: World, n: JsonValue, path: Path, st: State, depth: nat, budget: nat)
    requires IsIo(n) && w.request(st, n).Ok? && budget > 0
    ensures var r := Exec(w, n, path, st, depth, budget); Requested(r) && r.trace == [Event(path, n, st)]
  {
  }

  lemma IoBranchRequests(w: World, rule: JsonValue, arm: Arm, path: Path, st: State, budget: nat)
    requires Takes(w, rule, st, arm) && IsIo(ChildrenOf(rule, arm)[0])
    requires w.request(st, ChildrenOf(rule, arm)[0]).Ok? && budget >= 2
    ensures Requested(Exec(w, rule, path, st, 0, budget))
  {
    var child := ChildrenOf(rule, arm)[0];
    OneIo(w, child, Below(path, arm, 0), st, 1, budget - 1);
    var r := Exec(w, child, Below(path, arm, 0), st, 1, budget - 1);
    assert ExecArm(w, rule, arm, 0, path, st, 1, budget - 1) == r;
  }

  // ---------------------------------------------------------------- conjunctions, evaluated exactly

  /** A conjunction, nested no deeper than the source allows, of instruction types, present and absent paths, and
      comparisons. */
  predicate Conjunction(d: JsonValue, depth: nat)
    decreases d
  {
    && d.Object? && depth <= MAX_DOMAIN_DEPTH
    && match NodeType(d)
       case "instruction" => GetString(d, "instruction_type").Some?
       case "exists" => GetString(d, "path").Some?
       case "not" => depth < MAX_DOMAIN_DEPTH && Get(d, "inner").Some? && IsExists(Get(d, "inner").value)
       case "all" => Get(d, "inner").Some? && Get(d, "inner").value.Array?
                     && forall i | 0 <= i < |Inner(d)| :: Conjunction(Inner(d)[i], depth + 1)
       case other => other in {"eq", "lt", "in", "has_fields"}
  }

  predicate IsExists(d: JsonValue) {
    NodeType(d) == "exists" && GetString(d, "path").Some?
  }

  /** All the types and paths are as proved. */
  ghost predicate Meets(w: World, targets: set<string>, paths: Paths, st: State) {
    (forall t | t in targets :: CurrentType(st) == Some(t)) && PathsHold(w, paths, st)
  }

  ghost predicate MeetsDomain(w: World, d: JsonValue, st: State) {
    Meets(w, TargetsOf(d), PathsOf(d, false), st)
  }

  /** A comparison occurs among the conjuncts. */
  predicate HasComparison(d: JsonValue)
    decreases d, 1
  {
    match NodeType(d)
    case "all" => ComparisonUpTo(d, |Inner(d)|)
    case other => other in {"eq", "lt", "in", "has_fields"}
  }

  predicate ComparisonUpTo(d: JsonValue, n: nat)
    requires n <= |Inner(d)|
    decreases d, 0, n
  {
    n > 0 && (ComparisonUpTo(d, n - 1) || HasComparison(Inner(d)[n - 1]))
  }

  lemma {:induction false} ComparisonShows(d: JsonValue, k: nat, n: nat)
    requires k < n <= |Inner(d)| && HasComparison(Inner(d)[k])
    ensures ComparisonUpTo(d, n)
    decreases n
  {
    if k + 1 < n {
      ComparisonShows(d, k, n - 1);
    }
  }

  /** All comparisons come out the same way. */
  ghost predicate Compares(w: World, sat: bool) {
    forall st: State, d: JsonValue :: w.compare(st, d) == Ok(FromBool(sat))
  }

  /** The domain is met, and its comparisons, if it has any, come out satisfied. */
  ghost predicate Holds(w: World, d: JsonValue, st: State, sat: bool) {
    MeetsDomain(w, d, st) && (sat || !HasComparison(d))
  }

  predicate Decides(r: Result<Outcome, Fault>, sat: bool) {
    r.Ok? && (r.value == Sat <==> sat)
  }

  /** A conjunction is satisfied exactly when all it speaks of is as it says. */
  lemma {:induction false} ConjunctionIsExact(w: World, st: State, d: JsonValue, depth: nat, sat: bool)
    requires Conjunction(d, depth) && (HasComparison(d) ==> Compares(w, sat))
    ensures Decides(EvalDomain(w, st, d, depth), Holds(w, d, st, sat))
    decreases d, 1
  {
    match NodeType(d) {
      case "all" =>
        EachCompares(w, d, sat);
        AllIsExact(w, st, d, 0, depth + 1, sat);
        HoldsEach(w, st, d, |Inner(d)|, sat);
      case "not" =>
        NotExistsIsExact(w, st, d, depth);
      case _ =>
    }
  }

  lemma EachCompares(w: World, d: JsonValue, sat: bool)
    requires ComparisonUpTo(d, |Inner(d)|) ==> Compares(w, sat)
    ensures forall k | 0 <= k < |Inner(d)| :: HasComparison(Inner(d)[k]) ==> Compares(w, sat)
  {
    forall k | 0 <= k < |Inner(d)|
      ensures HasComparison(Inner(d)[k]) ==> Compares(w, sat)
    {
      if HasComparison(Inner(d)[k]) {
        ComparisonShows(d, k, |Inner(d)|);
      }
    }
  }

  lemma NotExistsIsExact(w: World, st: State, d: JsonValue, depth: nat)
    requires Conjunction(d, depth) && NodeType(d) == "not"
    ensures Decides(EvalDomain(w, st, d, depth), MeetsDomain(w, d, st))
  {
    var inner := Get(d, "inner").value;
    var p := GetString(inner, "path").value;
    assert EvalDomain(w, st, inner, depth + 1) == Ok(FromBool(ExistsAt(w, st, p)));
    assert PathsOf(d, false) == Paths({}, {p}) by {
      assert PathsOf(inner, true) == Paths({}, {p});
    }
  }

  /** The conjuncts from `i` to `n` hold. */
  ghost predicate HoldsFrom(w: World, d: JsonValue, st: State, i: nat, n: nat, sat: bool)
    requires i <= n <= |Inner(d)|
  {
    forall k | i <= k < n :: Holds(w, Inner(d)[k], st, sat)
  }

  lemma HoldsFirst(w: World, d: JsonValue, st: State, i: nat, n: nat, sat: bool)
    requires i < n <= |Inner(d)|
    ensures HoldsFrom(w, d, st, i, n, sat) <==> Holds(w, Inner(d)[i], st, sat) && HoldsFrom(w, d, st, i + 1, n, sat)
  {
  }

  lemma HoldsLast(w: World, d: JsonValue, st: State, n: nat, sat: bool)
    requires 0 < n <= |Inner(d)|
    ensures HoldsFrom(w, d, st, 0, n, sat) <==> HoldsFrom(w, d, st, 0, n - 1, sat) && Holds(w, Inner(d)[n - 1], st, sat)
  {
  }

  lemma FirstDecides(w: World, st: State, d: JsonValue, i: nat, depth: nat, first: bool, rest: bool)
    requires i < |Inner(d)| && Decides(EvalDomain(w, st, Inner(d)[i], depth), first)
    requires first ==> Decides(EvalAll(w, st, d, i + 1, depth), rest)
    ensures Decides(EvalAll(w, st, d, i, depth), first && rest)
  {
  }

  /** Evaluating the conjuncts from `i` on decides whether they hold. */
  lemma {:induction false} AllIsExact(w: World, st: State, d: JsonValue, i: nat, depth: nat, sat: bool)
    requires i <= |Inner(d)| && forall k | i <= k < |Inner(d)| :: Conjunction(Inner(d)[k], depth)
    requires forall k | i <= k < |Inner(d)| :: HasComparison(Inner(d)[k]) ==> Compares(w, sat)
    ensures Decides(EvalAll(w, st, d, i, depth), HoldsFrom(w, d, st, i, |Inner(d)|, sat))
    decreases d, 0, |Inner(d)| - i
  {
    var n := |Inner(d)|;
    if i < n {
      ConjunctionIsExact(w, st, Inner(d)[i], depth, sat);
      AllIsExact(w, st, d, i + 1, depth, sat);
      FirstDecides(w, st, d, i, depth, Holds(w, Inner(d)[i], st, sat), HoldsFrom(w, d, st, i + 1, n, sat));
      HoldsFirst(w, d, st, i, n, sat);
    }
  }

  /** What is proved by the first `n` conjuncts is what each of them proves. */
  lemma {:induction false} HoldsEach(w: World, st: State, d: JsonValue, n: nat, sat: bool)
    requires n <= |Inner(d)|
    ensures Meets(w, TargetsUpTo(d, n), PathsUpTo(d, false, n), st) && (sat || !ComparisonUpTo(d, n))
       <==> HoldsFrom(w, d, st, 0, n, sat)
    decreases n
  {
    if n > 0 {
      var s, t := TargetsUpTo(d, n - 1), TargetsOf(Inner(d)[n - 1]);
      var p, q := PathsUpTo(d, false, n - 1), PathsOf(Inner(d)[n - 1], false);
      HoldsEach(w, st, d, n - 1, sat);
      MeetsBoth(w, st, s, t, p, q);
      HoldsLast(w, d, st, n, sat);
      assert TargetsUpTo(d, n) == s + t && PathsUpTo(d, false, n) == p.Plus(q);
    }
  }

  lemma MeetsBoth(w: World, st: State, s: set<string>, t: set<string>, p: Paths, q: Paths)
    ensures Meets(w, s + t, p.Plus(q), st) <==> Meets(w, s, p, st) && Meets(w, t, q, st)
  {
  }

  // ---------------------------------------------------------------- simple rules

  /** Some state meets the domain: it proves at most one type, and no path both present and absent. */
  predicate Consistent(d: JsonValue) {
    |TargetsOf(d)| <= 1 && PathsOf(d, false).pos * PathsOf(d, false).neg == {}
  }

  /** A branch on a conjunction that some state meets. */
  predicate SimpleBranch(rule: JsonValue) {
    && NodeType(rule) == "branch" && DomainOf(rule).Some?
    && Conjunction(DomainOf(rule).value, 0) && Consistent(DomainOf(rule).value)
  }

  /** A `set`, or a simple branch with nothing but `set` on its arms. */
  predicate SetRule(rule: JsonValue) {
    IsSet(rule) || (SimpleBranch(rule) && SetsOn(rule, OnTrue) && SetsOn(rule, OnFalse))
  }

  predicate SetsOn(rule: JsonValue, arm: Arm) {
    AllSets(ChildrenOf(rule, arm)) && Short(ChildrenOf(rule, arm))
  }

  /** An `io_request`, or a simple branch with nothing but `io_request` on its arms. */
  predicate IoRule(rule: JsonValue) {
    IsIo(rule) || (SimpleBranch(rule) && AllIo(ChildrenOf(rule, OnTrue)) && AllIo(ChildrenOf(rule, OnFalse)))
  }

  lemma {:induction false} SetsMutate(rule: JsonValue, arm: Arm, n: nat)
    requires n <= |ChildrenOf(rule, arm)| && AllSets(ChildrenOf(rule, arm))
    ensures (MutatingUpTo(rule, arm, n) <==> n > 0) && !RequestUpTo(rule, arm, n)
  {
    if n > 0 {
      SetsMutate(rule, arm, n - 1);
      assert IsSet(ChildrenOf(rule, arm)[n - 1]);
    }
  }

  lemma {:induction false} IoRequests(rule: JsonValue, arm: Arm, n: nat)
    requires n <= |ChildrenOf(rule, arm)| && AllIo(ChildrenOf(rule, arm))
    ensures (RequestUpTo(rule, arm, n) <==> n > 0) && !MutatingUpTo(rule, arm, n)
  {
    if n > 0 {
      IoRequests(rule, arm, n - 1);
      assert IsIo(ChildrenOf(rule, arm)[n - 1]);
    }
  }

  lemma SetRuleShape(rule: JsonValue)
    requires SetRule(rule)
    ensures !HasRequest(rule)
    ensures NodeType(rule) == "branch" ==>
              && (GuardsMutation(rule) <==> ChildrenOf(rule, OnFalse) == [])
              && (HasMutating(rule) <==> ChildrenOf(rule, OnTrue) != [] || ChildrenOf(rule, OnFalse) != [])
  {
    if NodeType(rule) == "branch" {
      SetsMutate(rule, OnTrue, |ChildrenOf(rule, OnTrue)|);
      SetsMutate(rule, OnFalse, |ChildrenOf(rule, OnFalse)|);
    }
  }

  lemma IoRuleShape(rule: JsonValue)
    requires IoRule(rule)
    ensures !HasMutating(rule)
    ensures NodeType(rule) == "branch" ==>
              && (GuardsRequest(rule) <==> ChildrenOf(rule, OnFalse) == [])
              && (HasRequest(rule) <==> ChildrenOf(rule, OnTrue) != [] || ChildrenOf(rule, OnFalse) != [])
  {
    if NodeType(rule) == "branch" {
      IoRequests(rule, OnTrue, |ChildrenOf(rule, OnTrue)|);
      IoRequests(rule, OnFalse, |ChildrenOf(rule, OnFalse)|);
    }
  }

  // ---------------------------------------------------------------- a world for each pair

  /** The paths in `before` exist until something is set, and then those in `after`; comparisons all come out as
      `sat`, and instructions that miss a parameter are refused. */
  function Switching(before: set<string>, after: set<string>, sat: bool): World {
    World(
      (st, p) => None,
      (st: State, p) => if p in (if st.payload == Bool(true) then after else before) then Some(Bool(true)) else None,
      (st, d) => Ok(FromBool(sat)),
      (st, n) => if IsSet(n) then Ok(Bool(true)) else Err(FieldMissing("attr")),
      (st: State, n) => Ok(st.queue),
      (st, n) => if IsIo(n) then Ok(Null) else Err(FieldMissing("io_type")))
  }

  /** A state for an instruction of type `t`, or of none, before or after something was set. */
  function Standing(t: Option<string>, moved: bool): State {
    State(Object(if t.Some? then map["type" := String(t.value)] else map[]), Bool(moved), Null)
  }

  lemma SwitchingIsStrict(before: set<string>, after: set<string>, sat: bool)
    ensures Strict(Switching(before, after, sat)) && Compares(Switching(before, after, sat), sat)
  {
  }

  lemma SwitchingSets(before: set<string>, after: set<string>, sat: bool, t: Option<string>, ns: seq<JsonValue>)
    requires AllSets(ns)
    ensures SetsTo(Switching(before, after, sat), ns, 0, Standing(t, false), Standing(t, true))
  {
  }

  lemma SwitchingRespects(before: set<string>, after: set<string>, sat: bool, fixed: string -> bool)
    requires forall p: string | fixed(p) :: p in before <==> p in after
    ensures Respects(Switching(before, after, sat), fixed)
  {
  }

  lemma SwitchingExists(before: set<string>, after: set<string>, sat: bool, t: Option<string>, moved: bool, p: string)
    ensures ExistsAt(Switching(before, after, sat), Standing(t, moved), p) <==> p in (if moved then after else before)
    ensures CurrentType(Standing(t, moved)) == t
  {
  }

  /** The state meets a domain whose types are `t` and whose paths are as given there. */
  lemma SwitchingMeets(before: set<string>, after: set<string>, sat: bool, t: Option<string>, moved: bool, d: JsonValue)
    requires forall x | x in TargetsOf(d) :: t == Some(x)
    requires var there := if moved then after else before;
             PathsOf(d, false).pos <= there && PathsOf(d, false).neg * there == {}
    ensures MeetsDomain(Switching(before, after, sat), d, Standing(t, moved))
  {
    var w, st, paths := Switching(before, after, sat), Standing(t, moved), PathsOf(d, false);
    forall p | p in paths.pos
      ensures ExistsAt(w, st, p)
    {
      SwitchingExists(before, after, sat, t, moved, p);
    }
    var there := if moved then after else before;
    forall p | p in paths.neg
      ensures !ExistsAt(w, st, p)
    {
      assert p in paths.neg * there <==> p in there;
      SwitchingExists(before, after, sat, t, moved, p);
    }
    SwitchingExists(before, after, sat, t, moved, "");
  }

  // ---------------------------------------------------------------- which arm a simple branch takes

  lemma SimpleArm(w: World, rule: JsonValue, st: State, sat: bool)
    requires SimpleBranch(rule) && (HasComparison(DomainOf(rule).value) ==> Compares(w, sat))
    ensures ArmTaken(w, rule, st, 0) == Ok(if Holds(w, DomainOf(rule).value, st, sat) then OnTrue else OnFalse)
  {
    ConjunctionIsExact(w, st, DomainOf(rule).value, 0, sat);
  }

  lemma MeetsMeansHolds(w: World, rule: JsonValue, st: State)
    requires DomainOf(rule).Some? && MeetsDomain(w, DomainOf(rule).value, st)
    ensures FactsHold(w, FactsOf(rule), st)
  {
    var targets := TargetsOf(DomainOf(rule).value);
    if targets != {} {
      var t :| t in targets;
      assert CurrentType(st) == Some(t);
    }
  }

  lemma MetTogether(w: World, a: JsonValue, b: JsonValue, st: State)
    requires DomainOf(a).Some? && MeetsDomain(w, DomainOf(a).value, st)
    requires DomainOf(b).Some? && MeetsDomain(w, DomainOf(b).value, st)
    ensures Compatible(a, b)
  {
    MeetsMeansHolds(w, a, st);
    MeetsMeansHolds(w, b, st);
    ExcludedByTypesOrPaths(a, b);
    if p :| p in ClashPaths(a, b) {
      assert PathStays(w, a, b, st, st);
    }
    BothMet(w, a, b, st, st);
  }

  /** No state meets the domains of both rules of an excluded pair. */
  lemma NotBoth(w: World, a: JsonValue, b: JsonValue, st: State)
    requires DomainOf(a).Some? && DomainOf(b).Some? && !Compatible(a, b)
    ensures !(MeetsDomain(w, DomainOf(a).value, st) && MeetsDomain(w, DomainOf(b).value, st))
  {
    if MeetsDomain(w, DomainOf(a).value, st) && MeetsDomain(w, DomainOf(b).value, st) {
      MetTogether(w, a, b, st);
    }
  }

  /** The rule acts on the state: it is a leaf, or the arm it takes holds something. */
  predicate Acts(w: World, rule: JsonValue, st: State) {
    NodeType(rule) != "branch" || Takes(w, rule, st, OnTrue) || Takes(w, rule, st, OnFalse)
  }

  /** Every `set` of the rule leads to `after`. */
  predicate RuleLeads(w: World, a: JsonValue, st: State, after: State) {
    if NodeType(a) != "branch" then SetLeads(w, st, a, after)
    else SetsTo(w, ChildrenOf(a, OnTrue), 0, st, after) && SetsTo(w, ChildrenOf(a, OnFalse), 0, st, after)
  }

  lemma SetRuleChanges(w: World, a: JsonValue, st: State, after: State)
    requires SetRule(a) && Acts(w, a, st) && RuleLeads(w, a, st, after)
    ensures Changed(Exec(w, a, Path(0, []), st, 0, MAX_META_INSTRUCTIONS), after)
  {
    if NodeType(a) != "branch" {
      OneSet(w, a, Path(0, []), st, after, 0, MAX_META_INSTRUCTIONS);
      MutatesAtFront([Event(Path(0, []), a, st)], []);
      assert [Event(Path(0, []), a, st)] + [] == [Event(Path(0, []), a, st)];
    } else if Takes(w, a, st, OnTrue) {
      SetBranchChanges(w, a, OnTrue, Path(0, []), st, after);
    } else {
      SetBranchChanges(w, a, OnFalse, Path(0, []), st, after);
    }
  }

  ghost predicate GrantsIo(w: World, st: State) {
    forall n | IsIo(n) :: w.request(st, n).Ok?
  }

  lemma IoRuleRequests(w: World, b: JsonValue, st: State, budget: nat)
    requires IoRule(b) && Acts(w, b, st) && GrantsIo(w, st) && budget >= 2
    ensures Requested(Exec(w, b, Path(1, []), st, 0, budget))
  {
    if NodeType(b) != "branch" {
      OneIo(w, b, Path(1, []), st, 0, budget);
    } else if Takes(w, b, st, OnTrue) {
      IoBranchRequests(w, b, OnTrue, Path(1, []), st, budget);
    } else {
      IoBranchRequests(w, b, OnFalse, Path(1, []), st, budget);
    }
  }

  lemma SwitchingLeads(before: set<string>, after: set<string>, sat: bool, t: Option<string>, a: JsonValue)
    requires SetRule(a)
    ensures RuleLeads(Switching(before, after, sat), a, Standing(t, false), Standing(t, true))
  {
    if NodeType(a) == "branch" {
      SwitchingSets(before, after, sat, t, ChildrenOf(a, OnTrue));
      SwitchingSets(before, after, sat, t, ChildrenOf(a, OnFalse));
    }
  }

  lemma SwitchingGrants(before: set<string>, after: set<string>, sat: bool, st: State)
    ensures GrantsIo(Switching(before, after, sat), st)
  {
  }

  lemma ActingPair(w: World, a: JsonValue, b: JsonValue, st: State, after: State)
    requires SetRule(a) && IoRule(b) && Acts(w, a, st) && Acts(w, b, after)
    requires RuleLeads(w, a, st, after) && GrantsIo(w, after)
    ensures Loses(w, [a, b], st)
  {
    SetRuleChanges(w, a, st, after);
    var r := Exec(w, a, Path(0, []), st, 0, MAX_META_INSTRUCTIONS);
    IoRuleRequests(w, b, after, r.budget);
    ChangeThenRequest(w, a, b, st, after);
  }

  /** Both rules act, the second on what the first leaves: a change is lost. */
  lemma ActingPairLoses(before: set<string>, after: set<string>, sat: bool, t: Option<string>, a: JsonValue, b: JsonValue)
    requires SetRule(a) && IoRule(b)
    requires Acts(Switching(before, after, sat), a, Standing(t, false)) && Acts(Switching(before, after, sat), b, Standing(t, true))
    ensures Loses(Switching(before, after, sat), [a, b], Standing(t, false))
  {
    SwitchingLeads(before, after, sat, t, a);
    SwitchingGrants(before, after, sat, Standing(t, true));
    ActingPair(Switching(before, after, sat), a, b, Standing(t, false), Standing(t, true));
  }

  // ---------------------------------------------------------------- the converse, case by case

  /** At most one type: the type to choose. */
  lemma OneType(targets: set<string>) returns (t: Option<string>)
    requires |targets| <= 1
    ensures forall x | x in targets :: t == Some(x)
    ensures targets != {} ==> t.Some? && t.value in targets
  {
    t := None;
    if targets != {} {
      var x :| x in targets;
      assert targets - {x} == {} by {
        assert |targets - {x}| == 0;
      }
      t := Some(x);
    }
  }

  /** The first rule may change state when its domain fails: choose a state that meets the second domain. */
  lemma UnguardedSetLoses(a: JsonValue, b: JsonValue) returns (before: set<string>, t: Option<string>)
    requires SetRule(a) && IoRule(b) && !Compatible(a, b) && HasMutating(a) && HasRequest(b)
    requires !GuardsMutation(a) && GuardsRequest(b)
    ensures Loses(Switching(before, before, true), [a, b], Standing(t, false))
  {
    SetRuleShape(a);
    IoRuleShape(b);
    var d := DomainOf(b).value;
    t := OneType(TargetsOf(d));
    before := PathsOf(d, false).pos;
    var w := Switching(before, before, true);
    SwitchingIsStrict(before, before, true);
    SwitchingMeets(before, before, true, t, false, d);
    SwitchingMeets(before, before, true, t, true, d);
    SimpleArm(w, b, Standing(t, true), true);
    if NodeType(a) == "branch" {
      NotBoth(w, a, b, Standing(t, false));
      SimpleArm(w, a, Standing(t, false), true);
      assert Takes(w, a, Standing(t, false), OnFalse);
    }
    assert Takes(w, b, Standing(t, true), OnTrue);
    ActingPairLoses(before, before, true, t, a, b);
  }

  /** The second rule may request when its domain fails: choose a state that meets the first domain. */
  lemma UnguardedIoLoses(a: JsonValue, b: JsonValue) returns (before: set<string>, t: Option<string>)
    requires SetRule(a) && IoRule(b) && !Compatible(a, b) && HasMutating(a) && HasRequest(b)
    requires GuardsMutation(a) && !GuardsRequest(b)
    ensures Loses(Switching(before, before, true), [a, b], Standing(t, false))
  {
    SetRuleShape(a);
    IoRuleShape(b);
    var d := DomainOf(a).value;
    t := OneType(TargetsOf(d));
    before := PathsOf(d, false).pos;
    var w := Switching(before, before, true);
    SwitchingIsStrict(before, before, true);
    SwitchingMeets(before, before, true, t, false, d);
    SwitchingMeets(before, before, true, t, true, d);
    SimpleArm(w, a, Standing(t, false), true);
    if NodeType(b) == "branch" {
      NotBoth(w, a, b, Standing(t, true));
      SimpleArm(w, b, Standing(t, true), true);
      assert Takes(w, b, Standing(t, true), OnFalse);
    }
    assert Takes(w, a, Standing(t, false), OnTrue);
    ActingPairLoses(before, before, true, t, a, b);
  }

  /** The paths that exist for one domain, together with the fixed ones that the other needs. */
  function WithFixed(own: set<string>, other: set<string>, fixed: string -> bool): set<string> {
    own + set p | p in other && fixed(p)
  }

  /** A guarded branch whose domain is met acts. */
  lemma MetRuleActs(w: World, rule: JsonValue, st: State)
    requires SimpleBranch(rule) && Compares(w, true) && ChildrenOf(rule, OnTrue) != []
    requires MeetsDomain(w, DomainOf(rule).value, st)
    ensures Acts(w, rule, st)
  {
    SimpleArm(w, rule, st, true);
  }

  lemma FixedPathsKeepApart(pa: Paths, pb: Paths, fixed: string -> bool)
    requires pa.pos * pa.neg == {} && forall p | p in pa.neg * pb.pos :: !fixed(p)
    ensures pa.pos <= WithFixed(pa.pos, pb.pos, fixed) && pa.neg * WithFixed(pa.pos, pb.pos, fixed) == {}
  {
  }

  /** Both rules are guarded, but only by paths that may change: change them all in between. */
  lemma ChangingPathsLose(a: JsonValue, b: JsonValue, fixed: string -> bool)
    returns (before: set<string>, after: set<string>, t: Option<string>)
    requires SetRule(a) && IoRule(b) && HasMutating(a) && HasRequest(b)
    requires GuardsMutation(a) && GuardsRequest(b)
    requires !TypesClash(a, b) && forall p | p in ClashPaths(a, b) :: !fixed(p)
    ensures Respects(Switching(before, after, true), fixed)
    ensures Loses(Switching(before, after, true), [a, b], Standing(t, false))
  {
    SetRuleShape(a);
    IoRuleShape(b);
    var da, db := DomainOf(a).value, DomainOf(b).value;
    var pa, pb := PathsOf(da, false), PathsOf(db, false);
    before, after := WithFixed(pa.pos, pb.pos, fixed), WithFixed(pb.pos, pa.pos, fixed);
    t := CommonType(TargetsOf(da), TargetsOf(db));
    SwitchingIsStrict(before, after, true);
    SwitchingRespects(before, after, true, fixed);
    assert ClashPaths(a, b) == pa.pos * pb.neg + pa.neg * pb.pos;
    FixedPathsKeepApart(pa, pb, fixed);
    FixedPathsKeepApart(pb, pa, fixed);
    SwitchingMeets(before, after, true, t, false, da);
    SwitchingMeets(before, after, true, t, true, db);
    MetRuleActs(Switching(before, after, true), a, Standing(t, false));
    MetRuleActs(Switching(before, after, true), b, Standing(t, true));
    ActingPairLoses(before, after, true, t, a, b);
  }

  /** A type for both domains. */
  lemma CommonType(s: set<string>, u: set<string>) returns (t: Option<string>)
    requires |s| <= 1 && |u| <= 1 && MaybeOverlap(s, u)
    ensures forall x | x in s + u :: t == Some(x)
  {
    var ts := OneType(s);
    var tu := OneType(u);
    t := if s == {} then tu else ts;
    if s != {} && u != {} {
      var x :| x in s * u;
      assert ts == Some(x) && tu == Some(x);
    }
  }

  // ---------------------------------------------------------------- both rules may act outside their domains

  /** The domain is about this one path. */
  predicate OnePath(d: JsonValue, p: string, present: bool) {
    !HasComparison(d) && TargetsOf(d) == {} && PathsOf(d, false) == if present then Paths({p}, {}) else Paths({}, {p})
  }

  /** The rule acts only outside its domain. */
  predicate OnlyOutside(rule: JsonValue) {
    NodeType(rule) == "branch" && ChildrenOf(rule, OnTrue) == [] && DomainOf(rule).Some?
  }

  /** Both rules act only outside their domains, which are each other's complement, about one fixed path. */
  predicate Complements(a: JsonValue, b: JsonValue, fixed: string -> bool) {
    && OnlyOutside(a) && OnlyOutside(b)
    && exists p | p in ClashPaths(a, b) :: fixed(p) && ComplementOn(DomainOf(a).value, DomainOf(b).value, p)
  }

  predicate ComplementOn(da: JsonValue, db: JsonValue, p: string) {
    (OnePath(da, p, true) && OnePath(db, p, false)) || (OnePath(da, p, false) && OnePath(db, p, true))
  }

  /** No state of no type in which exactly the paths in `there` exist satisfies the domain. */
  predicate Fails(d: JsonValue, there: set<string>, sat: bool) {
    TargetsOf(d) != {} || (!sat && HasComparison(d)) || PathsFail(PathsOf(d, false), there)
  }

  predicate PathsFail(paths: Paths, there: set<string>) {
    paths.pos - there != {} || paths.neg * there != {}
  }

  lemma FailsMeansNotHolds(before: set<string>, after: set<string>, sat: bool, moved: bool, d: JsonValue)
    requires Fails(d, if moved then after else before, sat)
    ensures !Holds(Switching(before, after, sat), d, Standing(None, moved), sat)
  {
    var w, st, there := Switching(before, after, sat), Standing(None, moved), if moved then after else before;
    SwitchingExists(before, after, sat, None, moved, "");
    if TargetsOf(d) != {} {
      var t :| t in TargetsOf(d);
      assert CurrentType(st) != Some(t);
    } else if p :| p in PathsOf(d, false).pos - there {
      SwitchingExists(before, after, sat, None, moved, p);
    } else if p :| p in PathsOf(d, false).neg * there {
      SwitchingExists(before, after, sat, None, moved, p);
    }
  }

  predicate Agree(fixed: string -> bool, before: set<string>, after: set<string>) {
    forall p | p in before + after && fixed(p) :: p in before && p in after
  }

  /** One domain can be failed by some choice of paths, however comparisons come out. */
  lemma FailOne(d: JsonValue) returns (there: set<string>)
    requires TargetsOf(d) != {} || PathsOf(d, false).pos != {} || PathsOf(d, false).neg != {}
    ensures forall sat :: Fails(d, there, sat)
  {
    there := PathsOf(d, false).neg - PathsOf(d, false).pos;
    if TargetsOf(d) == {} && PathsOf(d, false).pos != {} {
      var p :| p in PathsOf(d, false).pos;
      assert p in PathsOf(d, false).pos - there;
    } else if TargetsOf(d) == {} {
      var p :| p in PathsOf(d, false).neg;
      assert p in PathsOf(d, false).neg * there;
    }
  }

  lemma Other(s: set<string>, p: string) returns (q: string)
    requires p in s && s != {p}
    ensures q in s && q != p
  {
    assert s == {p} + (s - {p});
    q :| q in s - {p};
  }

  /** Nothing but the one path, needed by the first and gone for the second. */
  predicate Opposite(x: Paths, y: Paths, p: string) {
    x == Paths({p}, {}) && y == Paths({}, {p})
  }

  /** Two sets of paths of which the first needs `p` and the second needs it gone can both be failed, unless they
      are about nothing but the fixed path `p`. */
  lemma FailLiterals(x: Paths, y: Paths, p: string, fixed: string -> bool) returns (before: set<string>, after: set<string>)
    requires p in x.pos && p in y.neg && x.pos * x.neg == {} && y.pos * y.neg == {}
    requires !(fixed(p) && Opposite(x, y, p))
    ensures PathsFail(x, before) && PathsFail(y, after) && Agree(fixed, before, after)
  {
    if !fixed(p) {
      before, after := {}, {p};
      assert p in x.pos - before && p in y.neg * after;
    } else if x.pos != {p} {
      var q := Other(x.pos, p);
      before, after := {p}, {p};
      assert q in x.pos - before && p in y.neg * after;
    } else if x.neg != {} {
      var q :| q in x.neg;
      before, after := {p, q}, {p, q};
      assert q in x.neg * before && p in y.neg * after;
    } else if y.neg != {p} {
      var q := Other(y.neg, p);
      before, after := {q}, {q};
      assert p in x.pos - before && q in y.neg * after;
    } else {
      var q :| q in y.pos;
      before, after := {}, {};
      assert p in x.pos - before && q in y.pos - after;
    }
  }

  /** Both domains of an excluded pair can be failed, the second after the change, unless they are complements. */
  lemma FailBoth(a: JsonValue, b: JsonValue, fixed: string -> bool)
    returns (before: set<string>, after: set<string>, sat: bool)
    requires SimpleBranch(a) && SimpleBranch(b) && !Compatible(a, b)
    requires forall p | p in ClashPaths(a, b) && fixed(p) :: !ComplementOn(DomainOf(a).value, DomainOf(b).value, p)
    ensures Fails(DomainOf(a).value, before, sat) && Fails(DomainOf(b).value, after, sat) && Agree(fixed, before, after)
  {
    var da, db := DomainOf(a).value, DomainOf(b).value;
    ExcludedHaveFacts(a, b);
    if TargetsOf(da) != {} || HasComparison(da) {
      before := FailOne(db);
      after, sat := before, false;
    } else if TargetsOf(db) != {} || HasComparison(db) {
      before := FailOne(da);
      after, sat := before, false;
    } else {
      sat := true;
      ExcludedByTypesOrPaths(a, b);
      before, after := FailPaths(da, db, PathsOf(da, false), PathsOf(db, false), fixed);
    }
  }

  lemma FailClash(x: Paths, y: Paths, fixed: string -> bool) returns (before: set<string>, after: set<string>)
    requires x.pos * x.neg == {} && y.pos * y.neg == {} && x.pos * y.neg + x.neg * y.pos != {}
    requires forall p | p in x.pos * y.neg + x.neg * y.pos && fixed(p) :: !Opposite(x, y, p) && !Opposite(y, x, p)
    ensures PathsFail(x, before) && PathsFail(y, after) && Agree(fixed, before, after)
  {
    var p :| p in x.pos * y.neg + x.neg * y.pos;
    if p in x.pos * y.neg {
      before, after := FailLiterals(x, y, p, fixed);
    } else {
      after, before := FailLiterals(y, x, p, fixed);
    }
  }

  lemma FailPaths(da: JsonValue, db: JsonValue, x: Paths, y: Paths, fixed: string -> bool)
    returns (before: set<string>, after: set<string>)
    requires x == PathsOf(da, false) && y == PathsOf(db, false)
    requires Consistent(da) && Consistent(db) && !HasComparison(da) && !HasComparison(db)
    requires TargetsOf(da) == {} && TargetsOf(db) == {} && x.pos * y.neg + x.neg * y.pos != {}
    requires forall p | p in x.pos * y.neg + x.neg * y.pos && fixed(p) :: !ComplementOn(da, db, p)
    ensures PathsFail(x, before) && PathsFail(y, after) && Agree(fixed, before, after)
  {
    forall p | p in x.pos * y.neg + x.neg * y.pos && fixed(p)
      ensures !Opposite(x, y, p) && !Opposite(y, x, p)
    {
      assert !ComplementOn(da, db, p);
    }
    before, after := FailClash(x, y, fixed);
  }

  lemma ExcludedHaveFacts(a: JsonValue, b: JsonValue)
    requires DomainOf(a).Some? && DomainOf(b).Some? && !Compatible(a, b)
    ensures var d := DomainOf(a).value; TargetsOf(d) != {} || PathsOf(d, false).pos != {} || PathsOf(d, false).neg != {}
    ensures var d := DomainOf(b).value; TargetsOf(d) != {} || PathsOf(d, false).pos != {} || PathsOf(d, false).neg != {}
  {
    ExcludedByTypesOrPaths(a, b);
    if p :| p in ClashPaths(a, b) {
    }
  }

  /** An unguarded rule acts when its domain fails, and always if it is a leaf or has something on both arms. */
  lemma UnguardedActs(before: set<string>, after: set<string>, sat: bool, moved: bool, rule: JsonValue)
    requires NodeType(rule) == "branch" ==> SimpleBranch(rule) && ChildrenOf(rule, OnFalse) != []
    requires OnlyOutside(rule) ==> Fails(DomainOf(rule).value, if moved then after else before, sat)
    ensures Acts(Switching(before, after, sat), rule, Standing(None, moved))
  {
    if NodeType(rule) == "branch" {
      SwitchingIsStrict(before, after, sat);
      SimpleArm(Switching(before, after, sat), rule, Standing(None, moved), sat);
      if OnlyOutside(rule) {
        FailsMeansNotHolds(before, after, sat, moved, DomainOf(rule).value);
      }
    }
  }

  lemma BothUnguardedLose(a: JsonValue, b: JsonValue, fixed: string -> bool)
    returns (before: set<string>, after: set<string>, sat: bool)
    requires SetRule(a) && IoRule(b) && !Compatible(a, b) && HasMutating(a) && HasRequest(b)
    requires !GuardsMutation(a) && !GuardsRequest(b) && !Complements(a, b, fixed)
    ensures Respects(Switching(before, after, sat), fixed)
    ensures Loses(Switching(before, after, sat), [a, b], Standing(None, false))
  {
    SetRuleShape(a);
    IoRuleShape(b);
    before, after, sat := {}, {}, true;
    if OnlyOutside(a) && OnlyOutside(b) {
      before, after, sat := FailBoth(a, b, fixed);
    } else if OnlyOutside(a) {
      before := FailOutside(a, b);
      after := before;
    } else if OnlyOutside(b) {
      before := FailOutside(b, a);
      after := before;
    }
    SwitchingRespects(before, after, sat, fixed);
    UnguardedActs(before, after, sat, false, a);
    UnguardedActs(before, after, sat, true, b);
    ActingPairLoses(before, after, sat, None, a, b);
  }

  lemma FailOutside(rule: JsonValue, other: JsonValue) returns (there: set<string>)
    requires DomainOf(rule).Some? && (!Compatible(rule, other) || !Compatible(other, rule))
    ensures forall sat :: Fails(DomainOf(rule).value, there, sat)
  {
    ExcludedByTypesOrPaths(rule, other);
    ExcludedByTypesOrPaths(other, rule);
    assert FactsOf(rule).provable != {} || FactsOf(rule).paths.pos != {} || FactsOf(rule).paths.neg != {} by {
      if p :| p in ClashPaths(rule, other) {
      } else if p :| p in ClashPaths(other, rule) {
      }
    }
    there := FailOne(DomainOf(rule).value);
  }

  /** What ran below a branch ran on the arm taken, on which there is something. */
  lemma BelowBranch(w: World, rule: JsonValue, path: Path, st: State, budget: nat, k: nat)
    requires NodeType(rule) == "branch" && 0 < k < |Exec(w, rule, path, st, 0, budget).trace|
    ensures ArmTaken(w, rule, st, 0).Ok? && ChildrenOf(rule, ArmTaken(w, rule, st, 0).value) != []
  {
    var arm := ArmTaken(w, rule, st, 0).value;
    ArmHasMore(w, rule, arm, 0, path, st, 1, budget - 1);
  }

  /** A rule that acts only outside its domain, about one path, acted: the path was not as the domain says. */
  lemma ActedOutside(w: World, rule: JsonValue, path: Path, st: State, budget: nat, k: nat, p: string, present: bool)
    requires SimpleBranch(rule) && OnlyOutside(rule) && OnePath(DomainOf(rule).value, p, present)
    requires 0 < k < |Exec(w, rule, path, st, 0, budget).trace|
    ensures ExistsAt(w, st, p) != present
  {
    BelowBranch(w, rule, path, st, budget, k);
    SimpleArm(w, rule, st, true);
    assert !MeetsDomain(w, DomainOf(rule).value, st);
  }

  lemma ComplementsNeverLose(a: JsonValue, b: JsonValue, fixed: string -> bool)
    requires SetRule(a) && IoRule(b) && Complements(a, b, fixed)
    ensures NeverLoses([a, b], fixed)
  {
    var p :| p in ClashPaths(a, b) && fixed(p) && ComplementOn(DomainOf(a).value, DomainOf(b).value, p);
    var present := OnePath(DomainOf(a).value, p, true);
    forall w: World, st: State | Strict(w) && Respects(w, fixed)
      ensures !Loses(w, [a, b], st)
    {
      forall t: nat, k: nat
        ensures !LosesAt(Pass(w, [a, b], st), t, k)
      {
        if LosesAt(Pass(w, [a, b], st), t, k) {
          var ea, eb := LosingPair(w, a, b, st, t, k, p, present);
        }
      }
    }
  }

  /** A change lost in a pass over two complementary rules: the path is as the first domain denies where the first
      rule started, and as the second denies where the second did. */
  lemma LosingPair(w: World, a: JsonValue, b: JsonValue, st: State, t: nat, k: nat, p: string, present: bool)
    returns (ea: State, eb: State)
    requires SetRule(a) && IoRule(b) && OnlyOutside(a) && OnlyOutside(b)
    requires OnePath(DomainOf(a).value, p, present) && OnePath(DomainOf(b).value, p, !present)
    requires LosesAt(Pass(w, [a, b], st), t, k)
    ensures ea.instruction == eb.instruction && !SameAt(w, p, ea, eb)
  {
    var vs := Pass(w, [a, b], st);
    SetRuleShape(a);
    IoRuleShape(b);
    var u, leftU, left, i := LosingVisits(w, a, b, st, t, k);
    FirstEvent(w, a, Path(0, []), vs[u].entry, leftU);
    FirstEvent(w, b, Path(1, []), vs[t].entry, left);
    ea, eb := vs[u].entry, vs[t].entry;
    ActedOutside(w, a, Path(0, []), ea, leftU, i, p, present);
    ActedOutside(w, b, Path(1, []), eb, left, k, p, !present);
  }

  /** A change lost over a rule without requests and one without changes was made by the first and lost by the second. */
  lemma LosingVisits(w: World, a: JsonValue, b: JsonValue, st: State, t: nat, k: nat)
    returns (u: nat, leftU: nat, left: nat, i: nat)
    requires !HasRequest(a) && !HasMutating(b) && LosesAt(Pass(w, [a, b], st), t, k)
    ensures var vs := Pass(w, [a, b], st);
            && u < t && vs[u].entry.instruction == vs[t].entry.instruction
            && vs[u].run == Exec(w, a, Path(0, []), vs[u].entry, 0, leftU)
            && vs[t].run == Exec(w, b, Path(1, []), vs[t].entry, 0, left)
            && i < |vs[u].run.trace| && IsMutating(vs[u].run.trace[i].node)
  {
    var rules, vs := [a, b], Pass(w, [a, b], st);
    var budget := FrontGate(w, rules, 0, st, MAX_META_INSTRUCTIONS).budget;
    left := VisitsFollow(w, rules, 0, st, budget, t);
    EventIsBelow(w, rules[vs[t].top], Path(vs[t].top, []), vs[t].entry, 0, left, k);
    assert vs[t].top == 1;
    RunHasMutating(w, b, Path(1, []), vs[t].entry, 0, left);
    u := EarlierChange(vs, t, k);
    leftU := VisitsFollow(w, rules, 0, st, budget, u);
    VisitTop(w, rules, vs[u].top, vs[u].entry, leftU, t - u);
    assert vs[u].top == 0;
    i :| 0 <= i < |vs[u].run.trace| && IsMutating(vs[u].run.trace[i].node);
  }

  lemma EarlierChange(vs: seq<Visit>, t: nat, k: nat) returns (u: nat)
    requires t < |vs| && k <= |vs[t].run.trace| && MutatedBefore(vs, t, k) && !Mutates(vs[t])
    ensures u < t && Mutates(vs[u])
  {
    assert !MutatedBy(vs[t].run.trace, k);
    u :| u < t && Mutates(vs[u]);
  }

  // ---------------------------------------------------------------- the condition is exact

  lemma Converse(a: JsonValue, b: JsonValue, fixed: string -> bool)
    requires SetRule(a) && IoRule(b) && Excluded([a, b], 0, 1)
    requires !PairOk(a, b, fixed) && !Complements(a, b, fixed)
    ensures !NeverLoses([a, b], fixed)
  {
    if !GuardsMutation(a) && !GuardsRequest(b) {
      var before, after, sat := BothUnguardedLose(a, b, fixed);
      SwitchingIsStrict(before, after, sat);
      assert Loses(Switching(before, after, sat), [a, b], Standing(None, false));
    } else if !GuardsMutation(a) {
      var before, t := UnguardedSetLoses(a, b);
      SwitchingIsStrict(before, before, true);
      SwitchingRespects(before, before, true, fixed);
      assert Loses(Switching(before, before, true), [a, b], Standing(t, false));
    } else if !GuardsRequest(b) {
      var before, t := UnguardedIoLoses(a, b);
      SwitchingIsStrict(before, before, true);
      SwitchingRespects(before, before, true, fixed);
      assert Loses(Switching(before, before, true), [a, b], Standing(t, false));
    } else {
      var before, after, t := ChangingPathsLose(a, b, fixed);
      SwitchingIsStrict(before, after, true);
      assert Loses(Switching(before, after, true), [a, b], Standing(t, false));
    }
  }

  lemma PairIsStatic(a: JsonValue, b: JsonValue, fixed: string -> bool)
    requires PairOk(a, b, fixed)
    ensures StaticOk([a, b], fixed)
  {
  }

  lemma OkNeverLoses(a: JsonValue, b: JsonValue, fixed: string -> bool)
    requires PairOk(a, b, fixed) && NoMarkedRequest([a, b])
    ensures NeverLoses([a, b], fixed)
  {
    PairIsStatic(a, b, fixed);
    forall w: World, st: State | Strict(w) && Respects(w, fixed)
      ensures !Loses(w, [a, b], st)
    {
      forall t: nat, k: nat
        ensures !LosesAt(Pass(w, [a, b], st), t, k)
      {
        if LosesAt(Pass(w, [a, b], st), t, k) {
          StaticallySound(w, [a, b], fixed, st, t, k);
        }
      }
    }
  }

  /** The condition is exact. Take a simple rule that sets and a simple rule that requests, taken by the analysis to
      exclude each other. The analysis marks nothing; and no change is lost, in any strict world that respects
      `fixed` and from any state, exactly when the pair meets the static condition or the two rules act only outside
      domains that are complements. */
  lemma ExactForPairs(a: JsonValue, b: JsonValue, fixed: string -> bool)
    requires SetRule(a) && IoRule(b) && Excluded([a, b], 0, 1)
    ensures NoMarkedRequest([a, b])
    ensures PairOk(a, b, fixed) || Complements(a, b, fixed) <==> NeverLoses([a, b], fixed)
  {
    SetRuleShape(a);
    IoRuleShape(b);
    PairUnmarked(a, b);
    if PairOk(a, b, fixed) {
      OkNeverLoses(a, b, fixed);
    } else if Complements(a, b, fixed) {
      ComplementsNeverLose(a, b, fixed);
    } else {
      Converse(a, b, fixed);
    }
  }
}
