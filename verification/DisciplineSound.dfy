/** The same-pass analysis is sound: a node listed as not preceded by a state change never runs after one. */
module DisciplineSound {
  import opened Base
  import opened Json
  import opened Discipline
  import opened DisciplinePass

  // ---------------------------------------------------------------- inside one rule

  /** `nodes` lists the event's node, marked as preceded whenever `flagged` holds. */
  ghost predicate Covers(nodes: seq<Node>, e: Event, flagged: bool) {
    exists n :: n in nodes && Lists(n, e, flagged)
  }

  predicate Lists(n: Node, e: Event, flagged: bool) {
    n.path == e.path && n.node == e.node && (flagged ==> n.precededByMutating)
  }

  lemma {:induction false} WalkedUpToHolds(nd: Node, arm: Arm, j: nat, m: nat, e: Event, flagged: bool)
    requires j < m <= |ChildrenOf(nd.node, arm)| && Covers(Walked(ChildNode(nd, arm, j)), e, flagged)
    ensures Covers(WalkedUpTo(nd, arm, m), e, flagged)
    decreases m
  {
    if j + 1 < m {
      WalkedUpToHolds(nd, arm, j, m - 1, e, flagged);
      var n :| n in WalkedUpTo(nd, arm, m - 1) && Lists(n, e, flagged);
      assert n in WalkedUpTo(nd, arm, m);
    } else {
      var n :| n in Walked(ChildNode(nd, arm, j)) && Lists(n, e, flagged);
      assert n in WalkedUpTo(nd, arm, m);
    }
  }

  lemma ArmIsWalked(nd: Node, arm: Arm, e: Event, flagged: bool)
    requires NodeType(nd.node) == "branch" && Covers(WalkedUpTo(nd, arm, |ChildrenOf(nd.node, arm)|), e, flagged)
    ensures Covers(Walked(nd), e, flagged)
  {
    var n :| n in WalkedUpTo(nd, arm, |ChildrenOf(nd.node, arm)|) && Lists(n, e, flagged);
    assert n in Walked(nd);
  }

  /** Whatever runs inside a rule is listed, and marked if anything changed state before it in that run. */
  lemma {:induction false} RunIsCovered(w: World, nd: Node, st: State, depth: nat, budget: nat, k: nat)
    requires k < |Exec(w, nd.node, nd.path, st, depth, budget).trace|
    ensures var trace := Exec(w, nd.node, nd.path, st, depth, budget).trace;
            Covers(Walked(nd), trace[k], nd.precededByMutating || MutatedBy(trace, k))
    decreases budget, 0
  {
    var trace := Exec(w, nd.node, nd.path, st, depth, budget).trace;
    if k == 0 {
      assert nd in Walked(nd) && Lists(nd, trace[0], nd.precededByMutating);
    } else {
      var arm := ArmTaken(w, nd.node, st, depth).value;
      var below := ExecArm(w, nd.node, arm, 0, nd.path, st, depth + 1, budget - 1).trace;
      ArmIsCovered(w, nd, arm, 0, st, depth + 1, budget - 1, below, k - 1);
      FirstIsBranch(trace, below, k);
      ArmIsWalked(nd, arm, trace[k], nd.precededByMutating || MutatedBy(trace, k));
    }
  }

  lemma FirstIsBranch(trace: seq<Event>, below: seq<Event>, k: nat)
    requires 0 < k < |trace| && trace[1..] == below && !IsMutating(trace[0].node)
    ensures trace[k] == below[k - 1] && (MutatedBy(trace, k) ==> MutatedBy(below, k - 1))
  {
    if MutatedBy(trace, k) {
      var i :| 0 <= i < k && IsMutating(trace[i].node);
      assert below[i - 1] == trace[i];
    }
  }

  /** Event `k` of what an arm ran from child `j` on is listed below it, and marked if anything changed state before. */
  ghost predicate ArmCovered(nd: Node, arm: Arm, j: nat, trace: seq<Event>, k: nat)
    requires j <= |ChildrenOf(nd.node, arm)| && k < |trace|
  {
    Covers(WalkedUpTo(nd, arm, |ChildrenOf(nd.node, arm)|), trace[k],
           nd.precededByMutating || MutatingUpTo(nd.node, arm, j) || MutatedBy(trace, k))
  }

  lemma {:induction false} ArmIsCovered(
      w: World, nd: Node, arm: Arm, j: nat, st: State, depth: nat, budget: nat, trace: seq<Event>, k: nat)
    requires j <= |ChildrenOf(nd.node, arm)|
    requires trace == ExecArm(w, nd.node, arm, j, nd.path, st, depth, budget).trace && k < |trace|
    ensures ArmCovered(nd, arm, j, trace, k)
    decreases budget, 1 + |ChildrenOf(nd.node, arm)| - j
  {
    ArmHasMore(w, nd.node, arm, j, nd.path, st, depth, budget);
    var first, rest, after, left := SplitArm(w, nd.node, arm, j, nd.path, st, depth, budget, trace);
    if k < |first| {
      RunIsCovered(w, ChildNode(nd, arm, j), st, depth, budget, k);
      FirstIsCovered(nd, arm, j, first, rest, k);
    } else {
      ArmIsCovered(w, nd, arm, j + 1, after, depth, left, rest, k - |first|);
      LaterIsCovered(nd, arm, j, first, rest, k);
    }
  }

  lemma ArmHasMore(w: World, parent: JsonValue, arm: Arm, j: nat, path: Path, st: State, depth: nat, budget: nat)
    requires j <= |ChildrenOf(parent, arm)| && ExecArm(w, parent, arm, j, path, st, depth, budget).trace != []
    ensures j < |ChildrenOf(parent, arm)|
  {
  }

  /** The events of an arm from child `j` on: those of the child, and those of the rest if it continued. */
  lemma SplitArm(
      w: World, parent: JsonValue, arm: Arm, j: nat, path: Path, st: State, depth: nat, budget: nat, trace: seq<Event>)
    returns (first: seq<Event>, rest: seq<Event>, after: State, left: nat)
    requires j < |ChildrenOf(parent, arm)| && trace == ExecArm(w, parent, arm, j, path, st, depth, budget).trace
    ensures trace == first + rest && left <= budget
    ensures first == Exec(w, ChildrenOf(parent, arm)[j], Below(path, arm, j), st, depth, budget).trace
    ensures MutatedBy(first, |first|) ==> HasMutating(ChildrenOf(parent, arm)[j])
    ensures rest != [] ==> rest == ExecArm(w, parent, arm, j + 1, path, after, depth, left).trace
  {
    var r := Exec(w, ChildrenOf(parent, arm)[j], Below(path, arm, j), st, depth, budget);
    RunHasMutating(w, ChildrenOf(parent, arm)[j], Below(path, arm, j), st, depth, budget);
    first, after, left := r.trace, st, r.budget;
    if Continues(r) {
      after := r.result.value.state;
      rest := ExecArm(w, parent, arm, j + 1, path, after, depth, left).trace;
    } else {
      rest := [];
    }
  }

  lemma FirstIsCovered(nd: Node, arm: Arm, j: nat, first: seq<Event>, rest: seq<Event>, k: nat)
    requires j < |ChildrenOf(nd.node, arm)| && k < |first|
    requires var child := ChildNode(nd, arm, j);
             Covers(Walked(child), first[k], child.precededByMutating || MutatedBy(first, k))
    ensures ArmCovered(nd, arm, j, first + rest, k)
  {
    PrefixMutates(first, first + rest, k);
    WalkedUpToHolds(nd, arm, j, |ChildrenOf(nd.node, arm)|, first[k],
                    ChildNode(nd, arm, j).precededByMutating || MutatedBy(first, k));
  }

  lemma LaterIsCovered(nd: Node, arm: Arm, j: nat, first: seq<Event>, rest: seq<Event>, k: nat)
    requires j < |ChildrenOf(nd.node, arm)| && |first| <= k < |first + rest|
    requires MutatedBy(first, |first|) ==> HasMutating(ChildrenOf(nd.node, arm)[j])
    requires ArmCovered(nd, arm, j + 1, rest, k - |first|)
    ensures ArmCovered(nd, arm, j, first + rest, k)
  {
    ConcatMutates(first, rest, k);
    CoversWeaker(WalkedUpTo(nd, arm, |ChildrenOf(nd.node, arm)|), rest[k - |first|],
                 nd.precededByMutating || MutatingUpTo(nd.node, arm, j + 1) || MutatedBy(rest, k - |first|),
                 nd.precededByMutating || MutatingUpTo(nd.node, arm, j) || MutatedBy(first + rest, k));
  }

  lemma CoversWeaker(nodes: seq<Node>, e: Event, flagged: bool, needed: bool)
    requires Covers(nodes, e, flagged) && (needed ==> flagged)
    ensures Covers(nodes, e, needed)
  {
    var n :| n in nodes && Lists(n, e, flagged);
    assert Lists(n, e, needed);
  }

  lemma RunHasMutating(w: World, instr: JsonValue, path: Path, st: State, depth: nat, budget: nat)
    ensures var trace := Exec(w, instr, path, st, depth, budget).trace;
            MutatedBy(trace, |trace|) ==> HasMutating(instr)
  {
    var trace := Exec(w, instr, path, st, depth, budget).trace;
    if MutatedBy(trace, |trace|) {
      var i :| 0 <= i < |trace| && IsMutating(trace[i].node);
      EventIsBelow(w, instr, path, st, depth, budget, i);
    }
  }

  lemma PrefixMutates(part: seq<Event>, trace: seq<Event>, k: nat)
    requires k < |part| && part <= trace
    ensures trace[k] == part[k] && (MutatedBy(trace, k) <==> MutatedBy(part, k))
  {
    assert forall i | 0 <= i < k :: trace[i] == part[i];
  }

  // ---------------------------------------------------------------- what a satisfied domain proves

  /** The facts read off a rule's domain are true of a state. */
  ghost predicate FactsHold(w: World, facts: TopFacts, st: State) {
    && (facts.provable == {} || (CurrentType(st).Some? && CurrentType(st).value in facts.provable))
    && PathsHold(w, facts.paths, st)
  }

  ghost predicate PathsHold(w: World, paths: Paths, st: State) {
    && (forall p | p in paths.pos :: ExistsAt(w, st, p))
    && (forall p | p in paths.neg :: !ExistsAt(w, st, p))
  }

  ghost predicate TargetsHold(targets: set<string>, st: State) {
    targets == {} || (CurrentType(st).Some? && CurrentType(st).value in targets)
  }

  lemma {:induction false} SatisfiedDomainHolds(w: World, st: State, d: JsonValue, depth: nat)
    requires EvalDomain(w, st, d, depth) == Ok(Sat)
    ensures TargetsHold(TargetsOf(d), st) && PathsHold(w, PathsOf(d, false), st)
    decreases d, 1
  {
    if NodeType(d) == "all" {
      SatisfiedAllHolds(w, st, d, |Inner(d)|, depth + 1);
    } else if NodeType(d) == "not" {
      NegatedExists(w, st, d, depth);
    }
  }

  lemma NegatedExists(w: World, st: State, d: JsonValue, depth: nat)
    requires EvalDomain(w, st, d, depth) == Ok(Sat) && NodeType(d) == "not"
    ensures PathsHold(w, PathsOf(d, false), st)
  {
    var inner := Get(d, "inner").value;
    assert EvalDomain(w, st, inner, depth + 1) == Ok(Unsat);
  }

  lemma {:induction false} SatisfiedAllHolds(w: World, st: State, d: JsonValue, n: nat, depth: nat)
    requires n <= |Inner(d)| && EvalAll(w, st, d, 0, depth) == Ok(Sat)
    ensures TargetsHold(TargetsUpTo(d, n), st) && PathsHold(w, PathsUpTo(d, false, n), st)
    decreases d, 0, n
  {
    if n > 0 {
      SatisfiedAllHolds(w, st, d, n - 1, depth);
      ConjunctIsSatisfied(w, st, d, 0, n - 1, depth);
      SatisfiedDomainHolds(w, st, Inner(d)[n - 1], depth);
      UnionsHold(w, st, TargetsUpTo(d, n - 1), TargetsOf(Inner(d)[n - 1]),
                 PathsUpTo(d, false, n - 1), PathsOf(Inner(d)[n - 1], false));
    }
  }

  lemma UnionsHold(w: World, st: State, s: set<string>, t: set<string>, p: Paths, q: Paths)
    requires TargetsHold(s, st) && TargetsHold(t, st) && PathsHold(w, p, st) && PathsHold(w, q, st)
    ensures TargetsHold(s + t, st) && PathsHold(w, p.Plus(q), st)
  {
  }

  lemma {:induction false} ConjunctIsSatisfied(w: World, st: State, d: JsonValue, i: nat, n: nat, depth: nat)
    requires i <= n < |Inner(d)| && EvalAll(w, st, d, i, depth) == Ok(Sat)
    ensures EvalDomain(w, st, Inner(d)[n], depth) == Ok(Sat)
    decreases n - i
  {
    if i < n {
      ConjunctIsSatisfied(w, st, d, i + 1, n, depth);
    }
  }

  // ---------------------------------------------------------------- a guarded rule that acted met its domain

  /** The rule changes state only under its domain: it is a branch with no `set` or `push` under `on_false`. */
  predicate GuardsMutation(rule: JsonValue) {
    NodeType(rule) == "branch" && !MutatingUpTo(rule, OnFalse, |ChildrenOf(rule, OnFalse)|)
  }

  /** The rule requests I/O only under its domain. */
  predicate GuardsRequest(rule: JsonValue) {
    NodeType(rule) == "branch" && !RequestUpTo(rule, OnFalse, |ChildrenOf(rule, OnFalse)|)
  }

  /** The event is one that the rule lets happen only under its domain. */
  predicate GuardedEvent(rule: JsonValue, e: Event) {
    (IsMutating(e.node) && GuardsMutation(rule)) || (IsRequest(e.node) && GuardsRequest(rule))
  }

  lemma GuardedTakesTrueArm(w: World, rule: JsonValue, path: Path, st: State, budget: nat, k: nat)
    requires NodeType(rule) == "branch" && 0 < k < |Exec(w, rule, path, st, 0, budget).trace|
    requires GuardedEvent(rule, Exec(w, rule, path, st, 0, budget).trace[k])
    ensures ArmTaken(w, rule, st, 0) == Ok(OnTrue)
  {
    var arm := ArmTaken(w, rule, st, 0).value;
    ArmEventIsBelow(w, rule, arm, 0, path, st, 1, budget - 1, k - 1);
  }

  lemma FirstEvent(w: World, rule: JsonValue, path: Path, st: State, budget: nat)
    requires Exec(w, rule, path, st, 0, budget).trace != []
    ensures Exec(w, rule, path, st, 0, budget).trace[0] == Event(path, rule, st)
  {
  }

  /** A guarded event means that the domain was satisfied when the rule started. */
  lemma EffectMeetsDomain(w: World, rule: JsonValue, path: Path, st: State, budget: nat, k: nat)
    requires k < |Exec(w, rule, path, st, 0, budget).trace|
    requires GuardedEvent(rule, Exec(w, rule, path, st, 0, budget).trace[k])
    ensures FactsHold(w, FactsOf(rule), st)
  {
    FirstEvent(w, rule, path, st, budget);
    GuardedTakesTrueArm(w, rule, path, st, budget, k);
    TakenMeansSatisfied(w, rule, st);
  }

  lemma TakenMeansSatisfied(w: World, rule: JsonValue, st: State)
    requires ArmTaken(w, rule, st, 0) == Ok(OnTrue)
    ensures FactsHold(w, FactsOf(rule), st)
  {
    var d := DomainOf(rule).value;
    if d.String? {
      assert FactsOf(rule) == TopFacts({}, NO_PATHS);
    } else {
      SatisfiedDomainHolds(w, st, d, 0);
    }
  }

  // ---------------------------------------------------------------- state along a pass

  /** The instruction never changes, and nothing else does before the first `set` or `push`. */
  ghost predicate Keeps(r: Run, st: State) {
    && (forall k | 0 <= k < |r.trace| :: KeepsAt(r.trace, k, st))
    && (Continues(r) ==>
          && r.result.value.state.instruction == st.instruction
          && (MutatedBy(r.trace, |r.trace|) || r.result.value.state == st))
  }

  predicate KeepsAt(trace: seq<Event>, k: nat, st: State)
    requires k < |trace|
  {
    trace[k].state.instruction == st.instruction && (MutatedBy(trace, k) || trace[k].state == st)
  }

  lemma ConcatMutates(a: seq<Event>, b: seq<Event>, k: nat)
    requires |a| <= k <= |a + b|
    ensures MutatedBy(a + b, k) <==> MutatedBy(a, |a|) || MutatedBy(b, k - |a|)
  {
    if MutatedBy(a, |a|) {
      var i :| 0 <= i < |a| && IsMutating(a[i].node);
      assert (a + b)[i] == a[i];
    } else if MutatedBy(b, k - |a|) {
      var i :| 0 <= i < k - |a| && IsMutating(b[i].node);
      assert (a + b)[i + |a|] == b[i];
    } else {
      forall i | 0 <= i < k
        ensures !IsMutating((a + b)[i].node)
      {
        assert (a + b)[i] == if i < |a| then a[i] else b[i - |a|];
      }
    }
  }

  lemma JoinedKeeps(first: Run, rest: Run, st: State)
    requires Continues(first) && Keeps(first, st) && Keeps(rest, first.result.value.state)
    ensures Keeps(Run(rest.result, rest.budget, first.trace + rest.trace), st)
  {
    var trace := first.trace + rest.trace;
    forall k | 0 <= k < |trace|
      ensures KeepsAt(trace, k, st)
    {
      if k < |first.trace| {
        assert KeepsAt(first.trace, k, st);
        PrefixMutates(first.trace, trace, k);
      } else {
        assert KeepsAt(rest.trace, k - |first.trace|, first.result.value.state);
        ConcatMutates(first.trace, rest.trace, k);
      }
    }
    ConcatMutates(first.trace, rest.trace, |trace|);
  }

  lemma {:induction false} RunKeepsState(w: World, instr: JsonValue, path: Path, st: State, depth: nat, budget: nat)
    ensures Keeps(Exec(w, instr, path, st, depth, budget), st)
    decreases budget, 0
  {
    var r := Exec(w, instr, path, st, depth, budget);
    if budget > 0 && NodeType(instr) == "branch" && ArmTaken(w, instr, st, depth).Ok? {
      var arm := ArmTaken(w, instr, st, depth).value;
      ArmKeepsState(w, instr, arm, 0, path, st, depth + 1, budget - 1);
      var began := Run(Ok(Continue(st)), budget, [Event(path, instr, st)]);
      JoinedKeeps(began, ExecArm(w, instr, arm, 0, path, st, depth + 1, budget - 1), st);
    } else if budget > 0 {
      assert IsMutating(instr) ==> IsMutating(r.trace[0].node);
    }
  }

  lemma {:induction false} ArmKeepsState(
      w: World, parent: JsonValue, arm: Arm, j: nat, path: Path, st: State, depth: nat, budget: nat)
    requires j <= |ChildrenOf(parent, arm)|
    ensures Keeps(ExecArm(w, parent, arm, j, path, st, depth, budget), st)
    decreases budget, 1 + |ChildrenOf(parent, arm)| - j
  {
    if j < |ChildrenOf(parent, arm)| {
      var first := Exec(w, ChildrenOf(parent, arm)[j], Below(path, arm, j), st, depth, budget);
      RunKeepsState(w, ChildrenOf(parent, arm)[j], Below(path, arm, j), st, depth, budget);
      if Continues(first) {
        ArmKeepsState(w, parent, arm, j + 1, path, first.result.value.state, depth, first.budget);
        JoinedKeeps(first, ExecArm(w, parent, arm, j + 1, path, first.result.value.state, depth, first.budget), st);
      }
    }
  }

  // ---------------------------------------------------------------- the whole pass

  /** Visit `u` changed state. */
  predicate Mutates(v: Visit) {
    MutatedBy(v.run.trace, |v.run.trace|)
  }

  /** A `set` or `push` ran before event `k` of visit `t`. */
  predicate MutatedBefore(visits: seq<Visit>, t: nat, k: nat)
    requires t < |visits| && k <= |visits[t].run.trace|
  {
    MutatedBy(visits[t].run.trace, k) || exists u | 0 <= u < t :: Mutates(visits[u])
  }

  predicate IsVisit(w: World, rules: seq<JsonValue>, v: Visit, budget: nat) {
    v.top < |rules| && v.run == Exec(w, rules[v.top], Path(v.top, []), v.entry, 0, budget)
  }

  lemma {:induction false} VisitTop(w: World, rules: seq<JsonValue>, i: nat, st: State, budget: nat, t: nat)
    requires i <= |rules| && t < |Visits(w, rules, i, st, budget)|
    ensures var top := Visits(w, rules, i, st, budget)[t].top;
            i <= top < |rules| && (t > 0 ==> i < top)
    decreases |rules| - i
  {
    if NodeType(rules[i]) == "enforce" {
      VisitTop(w, rules, i + 1, st, budget, t);
    } else if t > 0 {
      var r := Visits(w, rules, i, st, budget)[0].run;
      VisitTop(w, rules, i + 1, r.result.value.state, r.budget, t - 1);
    }
  }

  /** The visits from a visit on are those of a pass resumed at its rule, from where the visit before left
      the state; the instruction is the same throughout, and so is the rest until something changes it. */
  lemma {:induction false} VisitsFollow(w: World, rules: seq<JsonValue>, i: nat, st: State, budget: nat, t: nat)
    returns (left: nat)
    requires i <= |rules| && t < |Visits(w, rules, i, st, budget)|
    ensures var vs := Visits(w, rules, i, st, budget);
            && vs[t].top < |rules| && vs[t..] == Visits(w, rules, vs[t].top, vs[t].entry, left)
            && IsVisit(w, rules, vs[t], left)
            && vs[t].entry.instruction == st.instruction
            && ((exists u | 0 <= u < t :: Mutates(vs[u])) || vs[t].entry == st)
    decreases |rules| - i
  {
    var vs := Visits(w, rules, i, st, budget);
    if NodeType(rules[i]) == "enforce" {
      left := VisitsFollow(w, rules, i + 1, st, budget, t);
    } else if t == 0 {
      left := budget;
    } else {
      var r := vs[0].run;
      RunKeepsState(w, rules[i], Path(i, []), st, 0, budget);
      var rest := Visits(w, rules, i + 1, r.result.value.state, r.budget);
      left := VisitsFollow(w, rules, i + 1, r.result.value.state, r.budget, t - 1);
      assert vs[t..] == rest[t - 1..];
      LaterMutates(vs, rest, t);
    }
  }

  lemma LaterMutates(vs: seq<Visit>, rest: seq<Visit>, t: nat)
    requires 0 < t < |vs| && vs[1..] == rest
    ensures (exists u | 0 <= u < t - 1 :: Mutates(rest[u])) ==> exists u | 0 <= u < t :: Mutates(vs[u])
  {
    if u :| 0 <= u < t - 1 && Mutates(rest[u]) {
      assert vs[u + 1] == rest[u];
    }
  }

  // ---------------------------------------------------------------- pairs that the analysis excludes

  /** The two domains prove different instruction types. */
  predicate TypesClash(a: JsonValue, b: JsonValue) {
    !MaybeOverlap(FactsOf(a).provable, FactsOf(b).provable)
  }

  /** The paths that one domain proves present and the other absent. */
  function ClashPaths(a: JsonValue, b: JsonValue): set<string> {
    FactsOf(a).paths.pos * FactsOf(b).paths.neg + FactsOf(a).paths.neg * FactsOf(b).paths.pos
  }

  lemma ExcludedByTypesOrPaths(a: JsonValue, b: JsonValue)
    ensures Compatible(a, b) <==> !TypesClash(a, b) && ClashPaths(a, b) == {}
  {
  }

  /** Rule `j` could change state and rule `i` could request, but the analysis takes them to exclude each other. */
  predicate Excluded(rules: seq<JsonValue>, j: nat, i: nat)
    requires j < |rules| && i < |rules|
  {
    HasMutating(rules[j]) && HasRequest(rules[i]) && !Compatible(rules[j], rules[i])
  }

  /** Of two rules that exclude each other, both act only under their domains. */
  predicate PairsGuarded(rules: seq<JsonValue>) {
    forall j, i | 0 <= j < i < |rules| && Excluded(rules, j, i) :: GuardsMutation(rules[j]) && GuardsRequest(rules[i])
  }

  /** One of the paths on which the exclusion rests is equally present in both states. */
  predicate PathStays(w: World, a: JsonValue, b: JsonValue, sa: State, sb: State) {
    exists p | p in ClashPaths(a, b) :: ExistsAt(w, sa, p) == ExistsAt(w, sb, p)
  }

  /** Visit `v` reached an I/O request. */
  predicate Requests(v: Visit) {
    exists k | 0 <= k < |v.run.trace| :: IsRequest(v.run.trace[k].node)
  }

  /** Visit `u` changed state and visit `t` requests, although their rules exclude each other, and not by type. */
  predicate RestsOnPaths(rules: seq<JsonValue>, u: Visit, t: Visit) {
    && u.top < |rules| && t.top < |rules| && Mutates(u) && Requests(t)
    && Excluded(rules, u.top, t.top) && !TypesClash(rules[u.top], rules[t.top])
  }

  /** Where a pass rests on paths, one of them stays as it is between the two rules. */
  predicate PathsStay(w: World, rules: seq<JsonValue>, visits: seq<Visit>) {
    forall u, t | 0 <= u < t < |visits| && RestsOnPaths(rules, visits[u], visits[t]) ::
      PathStays(w, rules[visits[u].top], rules[visits[t].top], visits[u].entry, visits[t].entry)
  }

  /** Two domains met in one pass do not clash in type, nor in a path that stays. */
  lemma BothMet(w: World, a: JsonValue, b: JsonValue, sa: State, sb: State)
    requires FactsHold(w, FactsOf(a), sa) && FactsHold(w, FactsOf(b), sb)
    requires sa.instruction == sb.instruction
    ensures !TypesClash(a, b) && !PathStays(w, a, b, sa, sb)
  {
    var fa, fb := FactsOf(a), FactsOf(b);
    if fa.provable != {} && fb.provable != {} {
      assert CurrentType(sa).value in fa.provable * fb.provable;
    }
  }

  /** An earlier visit that changed state marks the root of a later visit that requests I/O. */
  lemma EarlierVisitMarks(w: World, rules: seq<JsonValue>, st: State, budget: nat, u: nat, t: nat, k: nat)
    requires PairsGuarded(rules)
    requires var vs := Visits(w, rules, 0, st, budget);
             && PathsStay(w, rules, vs) && u < t < |vs| && Mutates(vs[u])
             && k < |vs[t].run.trace| && IsRequest(vs[t].run.trace[k].node)
    ensures var vs := Visits(w, rules, 0, st, budget);
            vs[t].top < |rules| && MutatesBefore(rules, vs[t].top)
  {
    var vs := Visits(w, rules, 0, st, budget);
    var leftU := VisitsFollow(w, rules, 0, st, budget, u);
    VisitTop(w, rules, vs[u].top, vs[u].entry, leftU, t - u);
    var leftT := VisitsFollow(w, rules, 0, st, budget, t);
    var i :| 0 <= i < |vs[u].run.trace| && IsMutating(vs[u].run.trace[i].node);
    var a, b := rules[vs[u].top], rules[vs[t].top];
    EventIsBelow(w, a, Path(vs[u].top, []), vs[u].entry, 0, leftU, i);
    EventIsBelow(w, b, Path(vs[t].top, []), vs[t].entry, 0, leftT, k);
    if !Compatible(a, b) {
      assert Excluded(rules, vs[u].top, vs[t].top);
      EffectMeetsDomain(w, a, Path(vs[u].top, []), vs[u].entry, leftU, i);
      EffectMeetsDomain(w, b, Path(vs[t].top, []), vs[t].entry, leftT, k);
      BothMet(w, a, b, vs[u].entry, vs[t].entry);
      assert RestsOnPaths(rules, vs[u], vs[t]);
    }
    assert MutatesWith(rules, vs[u].top, vs[t].top);
  }

  lemma {:induction false} FlattenedHolds(rules: seq<JsonValue>, i: nat, m: nat, e: Event, flagged: bool)
    requires i < m <= |rules| && Covers(Walked(Root(rules, i)), e, flagged)
    ensures Covers(Flattened(rules, m), e, flagged)
    decreases m
  {
    if i + 1 < m {
      FlattenedHolds(rules, i, m - 1, e, flagged);
      var n :| n in Flattened(rules, m - 1) && Lists(n, e, flagged);
      assert n in Flattened(rules, m);
    } else {
      var n :| n in Walked(Root(rules, i)) && Lists(n, e, flagged);
      assert n in Flattened(rules, m);
    }
  }

  /** Soundness. Every I/O request that a pass reaches is listed by the analysis, and is marked as preceded
      by a state change whenever a `set` or `push` ran before it in that pass. */
  lemma PrecededIsSound(w: World, rules: seq<JsonValue>, st: State, t: nat, k: nat)
    requires PairsGuarded(rules) && PathsStay(w, rules, Pass(w, rules, st))
    requires var vs := Pass(w, rules, st);
             t < |vs| && k < |vs[t].run.trace| && IsRequest(vs[t].run.trace[k].node)
    ensures var vs := Pass(w, rules, st);
            Covers(Flattened(rules, |rules|), vs[t].run.trace[k], MutatedBefore(vs, t, k))
  {
    var vs := Pass(w, rules, st);
    var budget := FrontGate(w, rules, 0, st, MAX_META_INSTRUCTIONS).budget;
    VisitTop(w, rules, 0, st, budget, t);
    var left := VisitsFollow(w, rules, 0, st, budget, t);
    var root := Root(rules, vs[t].top);
    RunIsCovered(w, root, vs[t].entry, 0, left, k);
    if u :| 0 <= u < t && Mutates(vs[u]) {
      EarlierVisitMarks(w, rules, st, budget, u, t, k);
    }
    CoversWeaker(Walked(root), vs[t].run.trace[k],
                 root.precededByMutating || MutatedBy(vs[t].run.trace, k), MutatedBefore(vs, t, k));
    FlattenedHolds(rules, vs[t].top, |rules|, vs[t].run.trace[k], MutatedBefore(vs, t, k));
  }

  /** No I/O request is marked: the form that discipline DC-09 demands. */
  ghost predicate NoMarkedRequest(rules: seq<JsonValue>) {
    forall n | n in Flattened(rules, |rules|) && IsRequest(n.node) :: !n.precededByMutating
  }

  /** In a rule set that passes, the state discarded by an I/O request is the input state: nothing is lost
      when the request's result is fed to a fresh pass. */
  lemma NothingIsLost(w: World, rules: seq<JsonValue>, st: State, t: nat, k: nat)
    requires PairsGuarded(rules) && PathsStay(w, rules, Pass(w, rules, st)) && NoMarkedRequest(rules)
    requires var vs := Pass(w, rules, st);
             t < |vs| && k < |vs[t].run.trace| && IsRequest(vs[t].run.trace[k].node)
    ensures Pass(w, rules, st)[t].run.trace[k].state == st
    ensures !MutatedBefore(Pass(w, rules, st), t, k)
  {
    var vs := Pass(w, rules, st);
    var budget := FrontGate(w, rules, 0, st, MAX_META_INSTRUCTIONS).budget;
    PrecededIsSound(w, rules, st, t, k);
    var n :| n in Flattened(rules, |rules|) && Lists(n, vs[t].run.trace[k], MutatedBefore(vs, t, k));
    assert !MutatedBefore(vs, t, k);
    var left := VisitsFollow(w, rules, 0, st, budget, t);
    RunKeepsState(w, rules[vs[t].top], Path(vs[t].top, []), vs[t].entry, 0, left);
    assert KeepsAt(vs[t].run.trace, k, vs[t].entry);
  }

  // ---------------------------------------------------------------- what can be checked before any pass

  /** Whether a path in `fixed` exists is settled by the instruction, which no pass changes. */
  ghost predicate Respects(w: World, fixed: string -> bool) {
    forall p: string, a: State, b: State | fixed(p) && a.instruction == b.instruction :: SameAt(w, p, a, b)
  }

  predicate SameAt(w: World, p: string, a: State, b: State) {
    ExistsAt(w, a, p) == ExistsAt(w, b, p)
  }

  /** The exclusion holds in every pass: both rules act only under their domains, which clash in type or in a
      path that no pass can change. */
  predicate PairOk(a: JsonValue, b: JsonValue, fixed: string -> bool) {
    GuardsMutation(a) && GuardsRequest(b) && (TypesClash(a, b) || exists p | p in ClashPaths(a, b) :: fixed(p))
  }

  predicate StaticOk(rules: seq<JsonValue>, fixed: string -> bool) {
    forall j, i | 0 <= j < i < |rules| && Excluded(rules, j, i) :: PairOk(rules[j], rules[i], fixed)
  }

  lemma StaticMeansPaths(w: World, rules: seq<JsonValue>, fixed: string -> bool, st: State)
    requires StaticOk(rules, fixed) && Respects(w, fixed)
    ensures PairsGuarded(rules) && PathsStay(w, rules, Pass(w, rules, st))
  {
    var vs := Pass(w, rules, st);
    forall u, t | 0 <= u < t < |vs| && RestsOnPaths(rules, vs[u], vs[t])
      ensures PathStays(w, rules[vs[u].top], rules[vs[t].top], vs[u].entry, vs[t].entry)
    {
      var budget := FrontGate(w, rules, 0, st, MAX_META_INSTRUCTIONS).budget;
      var leftU := VisitsFollow(w, rules, 0, st, budget, u);
      VisitTop(w, rules, vs[u].top, vs[u].entry, leftU, t - u);
      var leftT := VisitsFollow(w, rules, 0, st, budget, t);
      assert PairOk(rules[vs[u].top], rules[vs[t].top], fixed);
      var p :| p in ClashPaths(rules[vs[u].top], rules[vs[t].top]) && fixed(p);
      assert SameAt(w, p, vs[u].entry, vs[t].entry);
    }
  }

  /** Soundness from what the rules say alone: in every pass of a rule set whose exclusions are static, from any
      state, an I/O request reached after a `set` or `push` is marked. */
  lemma StaticallySound(w: World, rules: seq<JsonValue>, fixed: string -> bool, st: State, t: nat, k: nat)
    requires StaticOk(rules, fixed) && Respects(w, fixed)
    requires var vs := Pass(w, rules, st);
             t < |vs| && k < |vs[t].run.trace| && IsRequest(vs[t].run.trace[k].node)
    ensures var vs := Pass(w, rules, st);
            Covers(Flattened(rules, |rules|), vs[t].run.trace[k], MutatedBefore(vs, t, k))
    ensures NoMarkedRequest(rules) ==> !MutatedBefore(Pass(w, rules, st), t, k) && Pass(w, rules, st)[t].run.trace[k].state == st
  {
    StaticMeansPaths(w, rules, fixed, st);
    PrecededIsSound(w, rules, st, t, k);
    if NoMarkedRequest(rules) {
      NothingIsLost(w, rules, st, t, k);
    }
  }

  /** Where every exclusion is by instruction type, nothing at all is asked of the paths. */
  lemma SoundByTypes(w: World, rules: seq<JsonValue>, st: State, t: nat, k: nat)
    requires PairsGuarded(rules)
    requires forall j, i | 0 <= j < i < |rules| && Excluded(rules, j, i) :: TypesClash(rules[j], rules[i])
    requires var vs := Pass(w, rules, st);
             t < |vs| && k < |vs[t].run.trace| && IsRequest(vs[t].run.trace[k].node)
    ensures var vs := Pass(w, rules, st);
            Covers(Flattened(rules, |rules|), vs[t].run.trace[k], MutatedBefore(vs, t, k))
  {
    StaticallySound(w, rules, p => false, st, t, k);
  }
}
