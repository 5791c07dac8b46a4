/** Constraints come first (evorule-tcb/src/transition.rs): wherever they stand among the rules, the top-level
    `enforce` rules are judged before any other rule gets its turn, and on the state the pass was given. */
module DisciplineGate {
  import opened Base
  import opened Json
  import opened Discipline
  import opened DisciplinePass

  predicate IsGuard(rule: JsonValue) {
    NodeType(rule) == "enforce"
  }

  /** The outcome of the domain a rule names, given directly or as a reference into the state. */
  function DomainOutcome(w: World, rule: JsonValue, st: State): Result<Outcome, Fault> {
    match Get(rule, "params")
    case None => Err(FieldMissing("params"))
    case Some(params) =>
      var domain :- ResolveOrLiteral(w, st, Get(params, "domain"));
      EvalDomain(w, st, domain, 0)
  }

  /** The guard can be judged on `st` and its domain is not satisfied there. */
  predicate LetsThrough(w: World, rule: JsonValue, st: State) {
    DomainOutcome(w, rule, st).Ok? && DomainOutcome(w, rule, st).value != Sat
  }

  /** The guard can be judged on `st`, its domain is satisfied there, and it says why it forbids that. */
  predicate Forbids(w: World, rule: JsonValue, st: State, reason: string) {
    && DomainOutcome(w, rule, st) == Ok(Sat)
    && Get(rule, "params").Some? && GetString(Get(rule, "params").value, "reason") == Some(reason)
  }

  predicate AllLetThrough(w: World, rules: seq<JsonValue>, st: State, i: nat, j: nat)
    requires i <= j <= |rules|
  {
    forall k | i <= k < j && IsGuard(rules[k]) :: LetsThrough(w, rules[k], st)
  }

  // ---------------------------------------------------------------- one guard

  /** A guard leaves the state alone or halts, and runs nothing else. */
  lemma GuardRuns(w: World, rule: JsonValue, i: nat, st: State, budget: nat)
    requires IsGuard(rule) && budget > 0
    ensures var r := Exec(w, rule, Path(i, []), st, 0, budget);
            && r.budget == budget - 1
            && (LetsThrough(w, rule, st) <==> r.result == Ok(Continue(st)))
            && (LetsThrough(w, rule, st) <==> r.result.Ok? && !r.result.value.Halted?)
  {
    assert GetString(rule, "type") == Some("enforce");
  }

  lemma GuardHalts(w: World, rule: JsonValue, i: nat, st: State, budget: nat, reason: string)
    requires IsGuard(rule) && budget > 0
    ensures Forbids(w, rule, st, reason) <==> Exec(w, rule, Path(i, []), st, 0, budget).result == Ok(Halted(reason))
  {
    assert GetString(rule, "type") == Some("enforce");
  }

  // ---------------------------------------------------------------- the gate

  lemma GateStep(w: World, rules: seq<JsonValue>, i: nat, st: State, budget: nat)
    requires i < |rules| && budget > 0
    requires !IsGuard(rules[i]) || LetsThrough(w, rules[i], st)
    ensures FrontGate(w, rules, i, st, budget)
         == FrontGate(w, rules, i + 1, st, if IsGuard(rules[i]) then budget - 1 else budget)
  {
    if IsGuard(rules[i]) {
      GuardRuns(w, rules[i], i, st, budget);
    }
  }

  lemma GateShuts(w: World, rules: seq<JsonValue>, i: nat, st: State, budget: nat)
    requires i < |rules| && budget > 0 && IsGuard(rules[i]) && !LetsThrough(w, rules[i], st)
    ensures !FrontGate(w, rules, i, st, budget).Open?
  {
    GuardRuns(w, rules[i], i, st, budget);
  }

  lemma GateBlocks(w: World, rules: seq<JsonValue>, i: nat, st: State, budget: nat, n: nat, reason: string)
    requires i < |rules| && budget > 0 && IsGuard(rules[i]) && !LetsThrough(w, rules[i], st)
    ensures FrontGate(w, rules, i, st, budget) == Blocked(n, reason) <==> n == i && Forbids(w, rules[i], st, reason)
  {
    GuardRuns(w, rules[i], i, st, budget);
    GuardHalts(w, rules[i], i, st, budget, reason);
  }

  /** The gate opens exactly when every guard from `i` on lets the input state through. */
  lemma {:induction false} GateOpensIff(w: World, rules: seq<JsonValue>, i: nat, st: State, budget: nat)
    requires i <= |rules| && |rules| - i < budget
    ensures FrontGate(w, rules, i, st, budget).Open? <==> AllLetThrough(w, rules, st, i, |rules|)
    decreases |rules| - i
  {
    if i < |rules| {
      if !IsGuard(rules[i]) || LetsThrough(w, rules[i], st) {
        GateStep(w, rules, i, st, budget);
        GateOpensIff(w, rules, i + 1, st, if IsGuard(rules[i]) then budget - 1 else budget);
      } else {
        GateShuts(w, rules, i, st, budget);
      }
    }
  }

  /** It is blocked by the first guard that does not, if that one forbids the state, and names it by its place
      in the whole list. */
  lemma {:induction false} GateBlocksIff(
      w: World, rules: seq<JsonValue>, i: nat, st: State, budget: nat, n: nat, reason: string)
    requires i <= |rules| && |rules| - i < budget
    ensures FrontGate(w, rules, i, st, budget) == Blocked(n, reason) <==>
            i <= n < |rules| && IsGuard(rules[n]) && AllLetThrough(w, rules, st, i, n)
            && Forbids(w, rules[n], st, reason)
    decreases |rules| - i
  {
    if i < |rules| {
      if !IsGuard(rules[i]) || LetsThrough(w, rules[i], st) {
        GateStep(w, rules, i, st, budget);
        GateBlocksIff(w, rules, i + 1, st, if IsGuard(rules[i]) then budget - 1 else budget, n, reason);
      } else {
        GateBlocks(w, rules, i, st, budget, n, reason);
      }
    }
  }

  /** Some rule is not a guard. */
  predicate HasOtherRule(rules: seq<JsonValue>, i: nat)
    requires i <= |rules|
  {
    exists k | i <= k < |rules| :: !IsGuard(rules[k])
  }

  lemma {:induction false} VisitsWhatIsNoGuard(w: World, rules: seq<JsonValue>, i: nat, st: State, budget: nat)
    requires i <= |rules|
    ensures Visits(w, rules, i, st, budget) != [] <==> HasOtherRule(rules, i)
    decreases |rules| - i
  {
    if i < |rules| && IsGuard(rules[i]) {
      VisitsWhatIsNoGuard(w, rules, i + 1, st, budget);
    }
  }

  /** A rule that is not a guard gets a turn exactly when there is one, there are not too many rules, and every
      guard, wherever it stands, lets the state through that the pass was given. */
  lemma GuardsComeFirst(w: World, rules: seq<JsonValue>, st: State)
    ensures Pass(w, rules, st) != [] <==>
            |rules| <= 128 && HasOtherRule(rules, 0) && AllLetThrough(w, rules, st, 0, |rules|)
  {
    if |rules| <= 128 {
      GateOpensIff(w, rules, 0, st, MAX_META_INSTRUCTIONS);
      var gate := FrontGate(w, rules, 0, st, MAX_META_INSTRUCTIONS);
      if gate.Open? {
        VisitsWhatIsNoGuard(w, rules, 0, st, gate.budget);
      }
    }
  }

  /** So no reordering of the rules gets round a guard. */
  lemma OrderDoesNotMatter(w: World, rules: seq<JsonValue>, other: seq<JsonValue>, st: State)
    requires |rules| == |other| && forall r :: r in rules <==> r in other
    ensures Pass(w, rules, st) != [] <==> Pass(w, other, st) != []
  {
    GuardsComeFirst(w, rules, st);
    GuardsComeFirst(w, other, st);
    OthersLetThrough(w, rules, other, st);
    OthersLetThrough(w, other, rules, st);
  }

  lemma OthersLetThrough(w: World, rules: seq<JsonValue>, other: seq<JsonValue>, st: State)
    requires forall r | r in other :: r in rules
    ensures AllLetThrough(w, rules, st, 0, |rules|) ==> AllLetThrough(w, other, st, 0, |other|)
    ensures HasOtherRule(other, 0) ==> HasOtherRule(rules, 0)
  {
    forall k | 0 <= k < |other|
      ensures exists l | 0 <= l < |rules| :: rules[l] == other[k]
    {
      assert other[k] in rules;
    }
  }
}
