/** The structural analysis of a rule set (evorule-discipline/src/lib.rs): which nodes may run after a
    state change in the same pass, given what the rules' domains prove about each other. */
module Discipline {
  import opened Base
  import opened Json

  // ---------------------------------------------------------------- reading a node

  /** A field of an object; anything else has no fields. */
  function Get(n: JsonValue, key: string): (r: Option<JsonValue>)
    ensures r.Some? ==> r.value < n
  {
    if n.Object? && key in n.fields then Some(n.fields[key]) else None
  }

  function GetString(n: JsonValue, key: string): Option<string> {
    match Get(n, key)
    case Some(String(s)) => Some(s)
    case _ => None
  }

  function GetItems(n: JsonValue, key: string): (r: seq<JsonValue>)
    ensures forall i | 0 <= i < |r| :: r[i] < n
  {
    match Get(n, key)
    case Some(Array(items)) => items
    case _ => []
  }

  /** The node's type, empty when it has none. */
  function NodeType(n: JsonValue): string {
    match GetString(n, "type")
    case Some(t) => t
    case None => ""
  }

  datatype Arm = OnTrue | OnFalse

  function ArmKey(arm: Arm): string {
    match arm
    case OnTrue => "on_true"
    case OnFalse => "on_false"
  }

  function ChildrenOf(n: JsonValue, arm: Arm): (r: seq<JsonValue>)
    ensures forall i | 0 <= i < |r| :: r[i] < n
  {
    match Get(n, "params")
    case Some(params) => GetItems(params, ArmKey(arm))
    case None => []
  }

  function DomainOf(rule: JsonValue): Option<JsonValue> {
    match Get(rule, "params")
    case Some(params) => Get(params, "domain")
    case None => None
  }

  /** The conjuncts of an `all` domain. */
  function Inner(domain: JsonValue): (r: seq<JsonValue>)
    ensures forall i | 0 <= i < |r| :: r[i] < domain
  {
    GetItems(domain, "inner")
  }

  // ---------------------------------------------------------------- facts about one domain

  /** The instruction types of which a satisfied domain proves one; empty means any. */
  function TargetsOf(domain: JsonValue): set<string>
    decreases domain, 1
  {
    match NodeType(domain)
    case "instruction" =>
      (match GetString(domain, "instruction_type")
       case Some(t) => {t}
       case None => {})
    case "all" => TargetsUpTo(domain, |Inner(domain)|)
    case _ => {}
  }

  function TargetsUpTo(domain: JsonValue, n: nat): set<string>
    requires n <= |Inner(domain)|
    decreases domain, 0, n
  {
    if n == 0 then {} else TargetsUpTo(domain, n - 1) + TargetsOf(Inner(domain)[n - 1])
  }

  method WalkTargets(domain: JsonValue, out: set<string>) returns (grown: set<string>)
    ensures grown == out + TargetsOf(domain)
    decreases domain
  {
    grown := out;
    match NodeType(domain) {
      case "instruction" =>
        var t := GetString(domain, "instruction_type");
        if t.Some? {
          grown := grown + {t.value};
        }
      case "all" =>
        var items := Inner(domain);
        for i := 0 to |items|
          invariant grown == out + TargetsUpTo(domain, i)
        {
          grown := WalkTargets(items[i], grown);
        }
      case _ =>
    }
  }

  /** The paths a satisfied domain proves to exist, and those it proves not to. */
  datatype Paths = Paths(pos: set<string>, neg: set<string>) {
    function Plus(other: Paths): Paths {
      Paths(pos + other.pos, neg + other.neg)
    }
  }

  const NO_PATHS: Paths := Paths({}, {})

  /** Looks below `not` only when it negates a plain `exists`. */
  function PathsOf(domain: JsonValue, negated: bool): Paths
    decreases domain, 1
  {
    match NodeType(domain)
    case "exists" =>
      (match GetString(domain, "path")
       case Some(p) => if negated then Paths({}, {p}) else Paths({p}, {})
       case None => NO_PATHS)
    case "all" => PathsUpTo(domain, negated, |Inner(domain)|)
    case "not" =>
      (match Get(domain, "inner")
       case Some(inner) => if NodeType(inner) == "exists" then PathsOf(inner, !negated) else NO_PATHS
       case None => NO_PATHS)
    case _ => NO_PATHS
  }

  function PathsUpTo(domain: JsonValue, negated: bool, n: nat): Paths
    requires n <= |Inner(domain)|
    decreases domain, 0, n
  {
    if n == 0 then NO_PATHS else PathsUpTo(domain, negated, n - 1).Plus(PathsOf(Inner(domain)[n - 1], negated))
  }

  method CollectExistsPaths(domain: JsonValue, negated: bool, pos: set<string>, neg: set<string>)
    returns (morePos: set<string>, moreNeg: set<string>)
    ensures Paths(morePos, moreNeg) == Paths(pos, neg).Plus(PathsOf(domain, negated))
    decreases domain
  {
    morePos, moreNeg := pos, neg;
    match NodeType(domain) {
      case "exists" =>
        var p := GetString(domain, "path");
        if p.Some? {
          if negated {
            moreNeg := moreNeg + {p.value};
          } else {
            morePos := morePos + {p.value};
          }
        }
      case "all" =>
        var items := Inner(domain);
        for i := 0 to |items|
          invariant Paths(morePos, moreNeg) == Paths(pos, neg).Plus(PathsUpTo(domain, negated, i))
        {
          morePos, moreNeg := CollectExistsPaths(items[i], negated, morePos, moreNeg);
        }
      case "not" =>
        var inner := Get(domain, "inner");
        if inner.Some? && NodeType(inner.value) == "exists" {
          morePos, moreNeg := CollectExistsPaths(inner.value, !negated, morePos, moreNeg);
        }
      case _ =>
    }
  }

  // ---------------------------------------------------------------- facts about one top-level rule

  datatype TopFacts = TopFacts(provable: set<string>, paths: Paths)

  function FactsOf(rule: JsonValue): TopFacts {
    match DomainOf(rule)
    case Some(d) => TopFacts(TargetsOf(d), PathsOf(d, false))
    case None => TopFacts({}, NO_PATHS)
  }

  method BuildTopFacts(rule: JsonValue) returns (facts: TopFacts)
    ensures facts == FactsOf(rule)
  {
    var provable: set<string> := {};
    var pos: set<string>, neg: set<string> := {}, {};
    var domain := DomainOf(rule);
    if domain.Some? {
      provable := WalkTargets(domain.value, provable);
      pos, neg := CollectExistsPaths(domain.value, false, pos, neg);
    }
    return TopFacts(provable, Paths(pos, neg));
  }

  predicate MaybeOverlap(a: set<string>, b: set<string>) {
    a == {} || b == {} || a * b != {}
  }

  predicate MutuallyExclusive(a: TopFacts, b: TopFacts) {
    a.paths.pos * b.paths.neg != {} || b.paths.pos * a.paths.neg != {}
  }

  /** Both rules may take effect in one pass, as far as their domains tell. */
  predicate Compatible(a: JsonValue, b: JsonValue) {
    MaybeOverlap(FactsOf(a).provable, FactsOf(b).provable) && !MutuallyExclusive(FactsOf(a), FactsOf(b))
  }

  // ---------------------------------------------------------------- effects in a subtree

  predicate IsMutating(n: JsonValue) {
    NodeType(n) == "set" || NodeType(n) == "push"
  }

  predicate HasMutating(n: JsonValue)
    decreases n, 1
  {
    || IsMutating(n)
    || (NodeType(n) == "branch"
        && (MutatingUpTo(n, OnTrue, |ChildrenOf(n, OnTrue)|) || MutatingUpTo(n, OnFalse, |ChildrenOf(n, OnFalse)|)))
  }

  /** One of the first `j` children changes state. */
  predicate MutatingUpTo(n: JsonValue, arm: Arm, j: nat)
    requires j <= |ChildrenOf(n, arm)|
    decreases n, 0, j
  {
    j > 0 && (MutatingUpTo(n, arm, j - 1) || HasMutating(ChildrenOf(n, arm)[j - 1]))
  }

  // ---------------------------------------------------------------- flattening

  /** Where a node stands: the top-level rule, then one arm and index per level. */
  datatype Step = Step(arm: Arm, index: nat)
  datatype Path = Path(top: nat, steps: seq<Step>)

  function Below(p: Path, arm: Arm, j: nat): Path {
    p.(steps := p.steps + [Step(arm, j)])
  }

  datatype Node = Node(path: Path, node: JsonValue, nested: bool, precededByMutating: bool)

  /** A child inherits its parent's fact and adds its own earlier siblings. */
  function ChildNode(nd: Node, arm: Arm, j: nat): Node
    requires j < |ChildrenOf(nd.node, arm)|
  {
    Node(Below(nd.path, arm, j), ChildrenOf(nd.node, arm)[j], true,
         nd.precededByMutating || MutatingUpTo(nd.node, arm, j))
  }

  /** The node and everything below it, parents first. */
  function Walked(nd: Node): seq<Node>
    decreases nd.node, 1
  {
    if NodeType(nd.node) == "branch" then
      [nd] + WalkedUpTo(nd, OnTrue, |ChildrenOf(nd.node, OnTrue)|) + WalkedUpTo(nd, OnFalse, |ChildrenOf(nd.node, OnFalse)|)
    else [nd]
  }

  function WalkedUpTo(nd: Node, arm: Arm, j: nat): seq<Node>
    requires j <= |ChildrenOf(nd.node, arm)|
    decreases nd.node, 0, j
  {
    if j == 0 then [] else WalkedUpTo(nd, arm, j - 1) + Walked(ChildNode(nd, arm, j - 1))
  }

  /** An earlier top-level rule that changes state and is not proved to sit out rule `i`'s pass. */
  predicate MutatesBefore(rules: seq<JsonValue>, i: nat)
    requires i < |rules|
  {
    exists j | 0 <= j < i :: MutatesWith(rules, j, i)
  }

  predicate MutatesWith(rules: seq<JsonValue>, j: nat, i: nat)
    requires j < |rules| && i < |rules|
  {
    HasMutating(rules[j]) && Compatible(rules[j], rules[i])
  }

  function Root(rules: seq<JsonValue>, i: nat): Node
    requires i < |rules|
  {
    Node(Path(i, []), rules[i], false, MutatesBefore(rules, i))
  }

  function Flattened(rules: seq<JsonValue>, n: nat): seq<Node>
    requires n <= |rules|
  {
    if n == 0 then [] else Flattened(rules, n - 1) + Walked(Root(rules, n - 1))
  }

  method Walk(nd: Node, out: seq<Node>) returns (grown: seq<Node>)
    ensures grown == out + Walked(nd)
    decreases nd.node, 1
  {
    grown := out + [nd];
    if NodeType(nd.node) == "branch" {
      grown := WalkArm(nd, OnTrue, grown);
      grown := WalkArm(nd, OnFalse, grown);
    }
  }

  method WalkArm(nd: Node, arm: Arm, out: seq<Node>) returns (grown: seq<Node>)
    ensures grown == out + WalkedUpTo(nd, arm, |ChildrenOf(nd.node, arm)|)
    decreases nd.node, 0
  {
    grown := out;
    var children := ChildrenOf(nd.node, arm);
    for j := 0 to |children|
      invariant grown == out + WalkedUpTo(nd, arm, j)
    {
      var child := ChildNode(nd, arm, j);
      grown := Walk(child, grown);
      WalkedSnoc(out, nd, arm, j);
    }
  }

  method SamePass(rules: seq<JsonValue>, tops: seq<TopFacts>, i: nat) returns (preceded: bool)
    requires i < |rules| == |tops| && forall j | 0 <= j < |rules| :: tops[j] == FactsOf(rules[j])
    ensures preceded <==> MutatesBefore(rules, i)
  {
    for j := 0 to i
      invariant forall m | 0 <= m < j :: !MutatesWith(rules, m, i)
    {
      if HasMutating(rules[j])
        && MaybeOverlap(tops[j].provable, tops[i].provable) && !MutuallyExclusive(tops[j], tops[i]) {
        assert MutatesWith(rules, j, i);
        return true;
      }
    }
    return false;
  }

  lemma WalkedSnoc(out: seq<Node>, nd: Node, arm: Arm, j: nat)
    requires j < |ChildrenOf(nd.node, arm)|
    ensures (out + WalkedUpTo(nd, arm, j)) + Walked(ChildNode(nd, arm, j)) == out + WalkedUpTo(nd, arm, j + 1)
  {
    Reassociate(out, WalkedUpTo(nd, arm, j), Walked(ChildNode(nd, arm, j)));
  }

  lemma Reassociate(a: seq<Node>, b: seq<Node>, c: seq<Node>)
    ensures (a + b) + c == a + (b + c)
  {
  }

  method Flatten(rules: seq<JsonValue>) returns (out: seq<Node>)
    ensures out == Flattened(rules, |rules|)
  {
    var tops: seq<TopFacts> := [];
    for i := 0 to |rules|
      invariant |tops| == i && forall j | 0 <= j < i :: tops[j] == FactsOf(rules[j])
    {
      var facts := BuildTopFacts(rules[i]);
      tops := tops + [facts];
    }
    out := [];
    for i := 0 to |rules|
      invariant out == Flattened(rules, i)
    {
      var preceded := SamePass(rules, tops, i);
      out := Walk(Node(Path(i, []), rules[i], false, preceded), out);
    }
  }
}
