/** What the flattened rule set says, read off the positions of nodes alone: every node is listed once, in
    preorder, and a node is marked exactly when a `set` or a `push` stands before it. */
module DisciplineMarks {
  import opened Base
  import opened Json
  import opened Discipline

  // ---------------------------------------------------------------- positions

  /** The node that the steps lead to. Only a branch has nodes below it. */
  function NodeUnder(n: JsonValue, steps: seq<Step>): Option<JsonValue>
    decreases |steps|
  {
    if steps == [] then Some(n)
    else if NodeType(n) == "branch" && steps[0].index < |ChildrenOf(n, steps[0].arm)| then
      NodeUnder(ChildrenOf(n, steps[0].arm)[steps[0].index], steps[1..])
    else None
  }

  function NodeAt(rules: seq<JsonValue>, p: Path): Option<JsonValue> {
    if p.top < |rules| then NodeUnder(rules[p.top], p.steps) else None
  }

  /** Where the two ways part, `y` is on the same arm and earlier: it is below an earlier sibling of `x` or of one
      of the nodes above `x`. */
  predicate SiblingBefore(y: seq<Step>, x: seq<Step>) {
    exists d | 0 <= d < |x| && d < |y| :: PartsAt(y, x, d)
  }

  predicate PartsAt(y: seq<Step>, x: seq<Step>, d: nat)
    requires d < |x| && d < |y|
  {
    y[..d] == x[..d] && y[d].arm == x[d].arm && y[d].index < x[d].index
  }

  /** The two domains prove no two different instruction types, and no path of which one proves the presence and the
      other the absence. */
  predicate MayShareAPass(a: JsonValue, b: JsonValue) {
    var f, g := FactsOf(a), FactsOf(b);
    && (f.provable == {} || g.provable == {} || exists t | t in f.provable :: t in g.provable)
    && (forall p | p in f.paths.pos :: p !in g.paths.neg)
    && (forall p | p in f.paths.neg :: p !in g.paths.pos)
  }

  /** The node at `y` stands before the one at `x`: in the same rule as said above, or anywhere in an earlier rule
      that may take effect in the same pass. */
  predicate StandsBefore(rules: seq<JsonValue>, y: Path, x: Path)
    requires y.top < |rules| && x.top < |rules|
  {
    || (y.top == x.top && SiblingBefore(y.steps, x.steps))
    || (y.top < x.top && MayShareAPass(rules[y.top], rules[x.top]))
  }

  predicate ChangesState(n: JsonValue) {
    NodeType(n) in {"set", "push"}
  }

  /** A node that changes state is at `y`, before `x`. */
  predicate ChangeBefore(rules: seq<JsonValue>, y: Path, x: Path) {
    && NodeAt(rules, y).Some? && ChangesState(NodeAt(rules, y).value)
    && x.top < |rules| && StandsBefore(rules, y, x)
  }

  // ---------------------------------------------------------------- effects in a subtree

  lemma {:induction false} MutatingHasNode(n: JsonValue) returns (steps: seq<Step>)
    requires HasMutating(n)
    ensures NodeUnder(n, steps).Some? && ChangesState(NodeUnder(n, steps).value)
    decreases n, 1
  {
    if IsMutating(n) {
      steps := [];
    } else if MutatingUpTo(n, OnTrue, |ChildrenOf(n, OnTrue)|) {
      steps := MutatingArmHasNode(n, OnTrue, |ChildrenOf(n, OnTrue)|);
    } else {
      steps := MutatingArmHasNode(n, OnFalse, |ChildrenOf(n, OnFalse)|);
    }
  }

  lemma {:induction false} MutatingArmHasNode(n: JsonValue, arm: Arm, j: nat) returns (steps: seq<Step>)
    requires NodeType(n) == "branch" && j <= |ChildrenOf(n, arm)| && MutatingUpTo(n, arm, j)
    ensures steps != [] && steps[0].arm == arm && steps[0].index < j
    ensures NodeUnder(n, steps).Some? && ChangesState(NodeUnder(n, steps).value)
    decreases n, 0, j
  {
    if MutatingUpTo(n, arm, j - 1) {
      steps := MutatingArmHasNode(n, arm, j - 1);
    } else {
      var below := MutatingHasNode(ChildrenOf(n, arm)[j - 1]);
      steps := [Step(arm, j - 1)] + below;
      assert steps[1..] == below;
    }
  }

  lemma {:induction false} NodeIsMutating(n: JsonValue, steps: seq<Step>)
    requires NodeUnder(n, steps).Some? && ChangesState(NodeUnder(n, steps).value)
    ensures HasMutating(n)
    ensures steps != [] ==> forall j | steps[0].index < j <= |ChildrenOf(n, steps[0].arm)| :: MutatingUpTo(n, steps[0].arm, j)
    decreases |steps|
  {
    if steps != [] {
      var arm, k := steps[0].arm, steps[0].index;
      NodeIsMutating(ChildrenOf(n, arm)[k], steps[1..]);
      forall j | k < j <= |ChildrenOf(n, arm)|
        ensures MutatingUpTo(n, arm, j)
      {
        MutatingFrom(n, arm, k, j);
      }
    }
  }

  lemma {:induction false} MutatingFrom(n: JsonValue, arm: Arm, k: nat, j: nat)
    requires k < j <= |ChildrenOf(n, arm)| && HasMutating(ChildrenOf(n, arm)[k])
    ensures MutatingUpTo(n, arm, j)
  {
    if k + 1 < j {
      MutatingFrom(n, arm, k, j - 1);
    }
  }

  // ---------------------------------------------------------------- before a node, inside one rule

  /** On the way down to a node, something that changes state is passed by. */
  predicate PassesChange(n: JsonValue, x: seq<Step>)
    requires NodeUnder(n, x).Some?
    decreases |x|
  {
    x != [] && (MutatingUpTo(n, x[0].arm, x[0].index) || PassesChange(ChildrenOf(n, x[0].arm)[x[0].index], x[1..]))
  }

  lemma SiblingDeeper(step: Step, y: seq<Step>, x: seq<Step>)
    requires SiblingBefore(y, x)
    ensures SiblingBefore([step] + y, [step] + x)
  {
    var d :| 0 <= d < |x| && d < |y| && PartsAt(y, x, d);
    assert ([step] + y)[..d + 1] == [step] + y[..d] && ([step] + x)[..d + 1] == [step] + x[..d];
    assert PartsAt([step] + y, [step] + x, d + 1);
  }

  lemma {:induction false} PassedNode(n: JsonValue, x: seq<Step>) returns (y: seq<Step>)
    requires NodeUnder(n, x).Some? && PassesChange(n, x)
    ensures NodeUnder(n, y).Some? && ChangesState(NodeUnder(n, y).value) && SiblingBefore(y, x)
    decreases |x|
  {
    var step := x[0];
    if MutatingUpTo(n, step.arm, step.index) {
      y := MutatingArmHasNode(n, step.arm, step.index);
      assert PartsAt(y, x, 0);
    } else {
      var below := PassedNode(ChildrenOf(n, step.arm)[step.index], x[1..]);
      y := [step] + below;
      assert y[1..] == below && x == [step] + x[1..];
      SiblingDeeper(step, below, x[1..]);
    }
  }

  lemma {:induction false} NodeIsPassed(n: JsonValue, x: seq<Step>, y: seq<Step>)
    requires NodeUnder(n, x).Some?
    requires NodeUnder(n, y).Some? && ChangesState(NodeUnder(n, y).value) && SiblingBefore(y, x)
    ensures PassesChange(n, x)
    decreases |x|
  {
    var d :| 0 <= d < |x| && d < |y| && PartsAt(y, x, d);
    if d == 0 {
      NodeIsMutating(n, y);
    } else {
      assert y[0] == y[..d][0] == x[..d][0] == x[0];
      assert y[1..][..d - 1] == y[..d][1..] && x[1..][..d - 1] == x[..d][1..];
      assert PartsAt(y[1..], x[1..], d - 1);
      NodeIsPassed(ChildrenOf(n, x[0].arm)[x[0].index], x[1..], y[1..]);
    }
  }

  // ---------------------------------------------------------------- what is listed below a node

  /** The way from `nd` down to `n`. */
  function Way(nd: Node, n: Node): seq<Step>
    requires nd.path.steps <= n.path.steps
  {
    n.path.steps[|nd.path.steps|..]
  }

  /** `n` is listed under its own position, and marked with what is inherited or passed by. */
  predicate ListedBelow(nd: Node, n: Node) {
    && n.path.top == nd.path.top && nd.path.steps <= n.path.steps
    && NodeUnder(nd.node, Way(nd, n)) == Some(n.node)
    && (n.nested <==> nd.nested || Way(nd, n) != [])
    && (n.precededByMutating <==> nd.precededByMutating || PassesChange(nd.node, Way(nd, n)))
  }

  lemma {:induction false} WalkedIsBelow(nd: Node, n: Node)
    requires n in Walked(nd)
    ensures ListedBelow(nd, n)
    decreases nd.node, 1
  {
    if n == nd {
      assert Way(nd, n) == [];
    } else if n in WalkedUpTo(nd, OnTrue, |ChildrenOf(nd.node, OnTrue)|) {
      ArmIsBelow(nd, OnTrue, |ChildrenOf(nd.node, OnTrue)|, n);
    } else {
      ArmIsBelow(nd, OnFalse, |ChildrenOf(nd.node, OnFalse)|, n);
    }
  }

  lemma {:induction false} ArmIsBelow(nd: Node, arm: Arm, j: nat, n: Node)
    requires NodeType(nd.node) == "branch" && j <= |ChildrenOf(nd.node, arm)| && n in WalkedUpTo(nd, arm, j)
    ensures ListedBelow(nd, n)
    decreases nd.node, 0, j
  {
    if n in WalkedUpTo(nd, arm, j - 1) {
      ArmIsBelow(nd, arm, j - 1, n);
    } else {
      var child := ChildNode(nd, arm, j - 1);
      WalkedIsBelow(child, n);
      OneStepDown(nd, arm, j - 1, n);
    }
  }

  lemma OneStepDown(nd: Node, arm: Arm, j: nat, n: Node)
    requires NodeType(nd.node) == "branch" && j < |ChildrenOf(nd.node, arm)| && ListedBelow(ChildNode(nd, arm, j), n)
    ensures ListedBelow(nd, n) && Way(nd, n) == [Step(arm, j)] + Way(ChildNode(nd, arm, j), n)
  {
    var child := ChildNode(nd, arm, j);
    var way := Way(child, n);
    assert child.path.steps == nd.path.steps + [Step(arm, j)];
    assert n.path.steps == nd.path.steps + ([Step(arm, j)] + way);
    assert Way(nd, n) == [Step(arm, j)] + way && ([Step(arm, j)] + way)[1..] == way;
  }

  /** Every node below is listed. */
  lemma {:induction false} BelowIsWalked(nd: Node, x: seq<Step>) returns (n: Node)
    requires NodeUnder(nd.node, x).Some?
    ensures n in Walked(nd) && n.path == Path(nd.path.top, nd.path.steps + x)
    decreases |x|
  {
    if x == [] {
      n := ItselfIsWalked(nd);
    } else {
      var child := FirstStep(nd, x);
      n := BelowIsWalked(child, x[1..]);
      ChildIsWalked(nd, x[0].arm, x[0].index, n);
    }
  }

  lemma ItselfIsWalked(nd: Node) returns (n: Node)
    ensures n in Walked(nd) && n.path == Path(nd.path.top, nd.path.steps + [])
  {
    n := nd;
    assert nd.path.steps + [] == nd.path.steps;
  }

  lemma FirstStep(nd: Node, x: seq<Step>) returns (child: Node)
    requires x != [] && NodeUnder(nd.node, x).Some?
    ensures NodeType(nd.node) == "branch" && x[0].index < |ChildrenOf(nd.node, x[0].arm)|
    ensures child == ChildNode(nd, x[0].arm, x[0].index) && NodeUnder(child.node, x[1..]).Some?
    ensures Path(child.path.top, child.path.steps + x[1..]) == Path(nd.path.top, nd.path.steps + x)
  {
    child := ChildNode(nd, x[0].arm, x[0].index);
    assert nd.path.steps + [x[0]] + x[1..] == nd.path.steps + x;
  }

  lemma ChildIsWalked(nd: Node, arm: Arm, j: nat, n: Node)
    requires NodeType(nd.node) == "branch" && j < |ChildrenOf(nd.node, arm)| && n in Walked(ChildNode(nd, arm, j))
    ensures n in Walked(nd)
  {
    InArm(nd, arm, j, |ChildrenOf(nd.node, arm)|, n);
    ArmIsWalkedToo(nd, arm, n);
  }

  lemma ArmIsWalkedToo(nd: Node, arm: Arm, n: Node)
    requires NodeType(nd.node) == "branch" && n in WalkedUpTo(nd, arm, |ChildrenOf(nd.node, arm)|)
    ensures n in Walked(nd)
  {
  }

  lemma {:induction false} InArm(nd: Node, arm: Arm, j: nat, m: nat, n: Node)
    requires j < m <= |ChildrenOf(nd.node, arm)| && n in Walked(ChildNode(nd, arm, j))
    ensures n in WalkedUpTo(nd, arm, m)
    decreases m
  {
    if j + 1 < m {
      InArm(nd, arm, j, m - 1, n);
    }
  }

  // ---------------------------------------------------------------- in preorder

  /** Preorder: a node before what is below it, `on_true` before `on_false`, and each arm in its own order. */
  predicate Precedes(x: seq<Step>, y: seq<Step>)
    decreases |x|
  {
    y != [] && (x == [] || StepPrecedes(x[0], y[0]) || (x[0] == y[0] && Precedes(x[1..], y[1..])))
  }

  predicate StepPrecedes(a: Step, b: Step) {
    (a.arm == OnTrue && b.arm == OnFalse) || (a.arm == b.arm && a.index < b.index)
  }

  /** The nodes are below `nd`, and each stands before the ones that follow. */
  predicate InOrder(nd: Node, ns: seq<Node>) {
    && (forall i | 0 <= i < |ns| :: ListedBelow(nd, ns[i]))
    && (forall i, j | 0 <= i < j < |ns| :: Precedes(Way(nd, ns[i]), Way(nd, ns[j])))
  }

  /** All are below child `lo` to child `hi` of an arm. */
  predicate Within(nd: Node, ns: seq<Node>, arm: Arm, lo: nat, hi: nat) {
    forall i | 0 <= i < |ns| :: StartsWithin(nd, ns[i], arm, lo, hi)
  }

  predicate StartsWithin(nd: Node, n: Node, arm: Arm, lo: nat, hi: nat) {
    && nd.path.steps <= n.path.steps && Way(nd, n) != []
    && Way(nd, n)[0].arm == arm && lo <= Way(nd, n)[0].index < hi
  }

  lemma ConcatInOrder(nd: Node, a: seq<Node>, b: seq<Node>)
    requires InOrder(nd, a) && InOrder(nd, b)
    requires forall i, j | 0 <= i < |a| && 0 <= j < |b| :: Precedes(Way(nd, a[i]), Way(nd, b[j]))
    ensures InOrder(nd, a + b)
  {
    var both := a + b;
    forall i, j | 0 <= i < j < |both|
      ensures ListedBelow(nd, both[i]) && ListedBelow(nd, both[j]) && Precedes(Way(nd, both[i]), Way(nd, both[j]))
    {
      assert both[i] == if i < |a| then a[i] else b[i - |a|];
      assert both[j] == if j < |a| then a[j] else b[j - |a|];
    }
    forall i | 0 <= i < |both|
      ensures ListedBelow(nd, both[i])
    {
      assert both[i] == if i < |a| then a[i] else b[i - |a|];
    }
  }

  /** What is in order below a child is in order below its parent. */
  lemma ChildInOrder(nd: Node, arm: Arm, j: nat, ns: seq<Node>)
    requires NodeType(nd.node) == "branch" && j < |ChildrenOf(nd.node, arm)| && InOrder(ChildNode(nd, arm, j), ns)
    ensures InOrder(nd, ns) && Within(nd, ns, arm, j, j + 1)
  {
    var child := ChildNode(nd, arm, j);
    forall i | 0 <= i < |ns|
      ensures ListedBelow(nd, ns[i]) && StartsWithin(nd, ns[i], arm, j, j + 1)
    {
      OneStepDown(nd, arm, j, ns[i]);
    }
    forall i, k | 0 <= i < k < |ns|
      ensures Precedes(Way(nd, ns[i]), Way(nd, ns[k]))
    {
      assert ListedBelow(child, ns[i]) && ListedBelow(child, ns[k]);
      OneStepDown(nd, arm, j, ns[i]);
      OneStepDown(nd, arm, j, ns[k]);
      PrecedesDeeper(Step(arm, j), Way(child, ns[i]), Way(child, ns[k]));
    }
  }

  lemma PrecedesDeeper(step: Step, x: seq<Step>, y: seq<Step>)
    requires Precedes(x, y)
    ensures Precedes([step] + x, [step] + y)
  {
    assert ([step] + x)[1..] == x && ([step] + y)[1..] == y;
  }

  lemma WithinApart(nd: Node, a: seq<Node>, b: seq<Node>, arm: Arm, j: nat)
    requires Within(nd, a, arm, 0, j) && Within(nd, b, arm, j, j + 1)
    ensures forall i, k | 0 <= i < |a| && 0 <= k < |b| :: Precedes(Way(nd, a[i]), Way(nd, b[k]))
    ensures Within(nd, a + b, arm, 0, j + 1)
  {
    forall i, k | 0 <= i < |a| && 0 <= k < |b|
      ensures Precedes(Way(nd, a[i]), Way(nd, b[k]))
    {
      assert StartsWithin(nd, a[i], arm, 0, j) && StartsWithin(nd, b[k], arm, j, j + 1);
    }
    forall i | 0 <= i < |a + b|
      ensures StartsWithin(nd, (a + b)[i], arm, 0, j + 1)
    {
      assert if i < |a| then StartsWithin(nd, a[i], arm, 0, j) else StartsWithin(nd, b[i - |a|], arm, j, j + 1);
    }
  }

  lemma ArmsApart(nd: Node, a: seq<Node>, b: seq<Node>, m: nat, n: nat)
    requires Within(nd, a, OnTrue, 0, m) && Within(nd, b, OnFalse, 0, n)
    ensures forall i, k | 0 <= i < |a| && 0 <= k < |b| :: Precedes(Way(nd, a[i]), Way(nd, b[k]))
  {
    forall i, k | 0 <= i < |a| && 0 <= k < |b|
      ensures Precedes(Way(nd, a[i]), Way(nd, b[k]))
    {
      assert StartsWithin(nd, a[i], OnTrue, 0, m) && StartsWithin(nd, b[k], OnFalse, 0, n);
    }
  }

  lemma {:induction false} WalkedInOrder(nd: Node)
    ensures InOrder(nd, Walked(nd))
    decreases nd.node, 1
  {
    assert Way(nd, nd) == [] && ListedBelow(nd, nd);
    if NodeType(nd.node) == "branch" {
      var m, n := |ChildrenOf(nd.node, OnTrue)|, |ChildrenOf(nd.node, OnFalse)|;
      var a, b := WalkedUpTo(nd, OnTrue, m), WalkedUpTo(nd, OnFalse, n);
      ArmInOrder(nd, OnTrue, m);
      ArmInOrder(nd, OnFalse, n);
      ArmsApart(nd, a, b, m, n);
      ConcatInOrder(nd, a, b);
      NodeThenBelow(nd, a, b, m, n);
      assert [nd] + a + b == [nd] + (a + b);
    }
  }

  lemma NodeThenBelow(nd: Node, a: seq<Node>, b: seq<Node>, m: nat, n: nat)
    requires ListedBelow(nd, nd) && InOrder(nd, a + b) && Within(nd, a, OnTrue, 0, m) && Within(nd, b, OnFalse, 0, n)
    ensures InOrder(nd, [nd] + (a + b))
  {
    assert Way(nd, nd) == [];
    forall i | 0 <= i < |a + b|
      ensures Way(nd, (a + b)[i]) != []
    {
      assert if i < |a| then StartsWithin(nd, a[i], OnTrue, 0, m) else StartsWithin(nd, b[i - |a|], OnFalse, 0, n);
    }
    ConcatInOrder(nd, [nd], a + b);
  }

  lemma {:induction false} ArmInOrder(nd: Node, arm: Arm, j: nat)
    requires NodeType(nd.node) == "branch" && j <= |ChildrenOf(nd.node, arm)|
    ensures InOrder(nd, WalkedUpTo(nd, arm, j)) && Within(nd, WalkedUpTo(nd, arm, j), arm, 0, j)
    decreases nd.node, 0, j
  {
    if j > 0 {
      var a, b := WalkedUpTo(nd, arm, j - 1), Walked(ChildNode(nd, arm, j - 1));
      ArmInOrder(nd, arm, j - 1);
      WalkedInOrder(ChildNode(nd, arm, j - 1));
      ChildInOrder(nd, arm, j - 1, b);
      WithinApart(nd, a, b, arm, j - 1);
      ConcatInOrder(nd, a, b);
    }
  }

  // ---------------------------------------------------------------- the whole list

  lemma {:induction false} FlattenedIsWalked(rules: seq<JsonValue>, m: nat, n: Node)
    requires m <= |rules| && n in Flattened(rules, m)
    ensures n.path.top < m && n in Walked(Root(rules, n.path.top))
    decreases m
  {
    if n in Flattened(rules, m - 1) {
      FlattenedIsWalked(rules, m - 1, n);
    } else {
      WalkedIsBelow(Root(rules, m - 1), n);
    }
  }

  lemma {:induction false} WalkedIsFlattened(rules: seq<JsonValue>, i: nat, m: nat, n: Node)
    requires i < m <= |rules| && n in Walked(Root(rules, i))
    ensures n in Flattened(rules, m)
    decreases m
  {
    if i + 1 < m {
      WalkedIsFlattened(rules, i, m - 1, n);
    }
  }

  /** Sharing a pass is what the analysis tests. */
  lemma SharingIsCompatible(a: JsonValue, b: JsonValue)
    ensures MayShareAPass(a, b) <==> Compatible(a, b)
  {
    var f, g := FactsOf(a), FactsOf(b);
    if f.provable * g.provable != {} {
      var t :| t in f.provable * g.provable;
      assert t in f.provable && t in g.provable;
    }
    if t :| t in f.provable && t in g.provable {
      assert t in f.provable * g.provable;
    }
    if Compatible(a, b) {
      forall p | p in f.paths.pos
        ensures p !in g.paths.neg
      {
        assert p !in f.paths.pos * g.paths.neg;
      }
      forall p | p in f.paths.neg
        ensures p !in g.paths.pos
      {
        assert p !in g.paths.pos * f.paths.neg;
      }
    }
  }

  lemma MarkedHasChange(rules: seq<JsonValue>, n: Node) returns (y: Path)
    requires n in Flattened(rules, |rules|) && n.precededByMutating
    ensures ChangeBefore(rules, y, n.path)
  {
    FlattenedIsWalked(rules, |rules|, n);
    var i := n.path.top;
    var root := Root(rules, i);
    WalkedIsBelow(root, n);
    assert Way(root, n) == n.path.steps;
    if PassesChange(rules[i], n.path.steps) {
      var steps := PassedNode(rules[i], n.path.steps);
      y := Path(i, steps);
    } else {
      var j: nat :| j < i && MutatesWith(rules, j, i);
      var steps := MutatingHasNode(rules[j]);
      SharingIsCompatible(rules[j], rules[i]);
      y := Path(j, steps);
    }
  }

  lemma ChangeMarks(rules: seq<JsonValue>, n: Node, y: Path)
    requires n in Flattened(rules, |rules|) && ChangeBefore(rules, y, n.path)
    ensures n.precededByMutating
  {
    FlattenedIsWalked(rules, |rules|, n);
    var i := n.path.top;
    var root := Root(rules, i);
    WalkedIsBelow(root, n);
    assert Way(root, n) == n.path.steps;
    if y.top == i {
      NodeIsPassed(rules[i], n.path.steps, y.steps);
    } else {
      NodeIsMutating(rules[y.top], y.steps);
      SharingIsCompatible(rules[y.top], rules[i]);
      assert MutatesWith(rules, y.top, i);
    }
  }

  /** The list holds exactly the nodes of the rule set, each under its position; and a node is marked exactly when a
      `set` or a `push` stands before it: below an earlier sibling of it or of a node above it, or anywhere in an
      earlier rule whose domain may be met in the same pass. */
  lemma MarkedIffChangeBefore(rules: seq<JsonValue>, n: Node)
    requires n in Flattened(rules, |rules|)
    ensures NodeAt(rules, n.path) == Some(n.node) && (n.nested <==> n.path.steps != [])
    ensures n.precededByMutating <==> exists y: Path :: ChangeBefore(rules, y, n.path)
  {
    FlattenedIsWalked(rules, |rules|, n);
    WalkedIsBelow(Root(rules, n.path.top), n);
    assert Way(Root(rules, n.path.top), n) == n.path.steps;
    if n.precededByMutating {
      var y := MarkedHasChange(rules, n);
    }
    if y: Path :| ChangeBefore(rules, y, n.path) {
      ChangeMarks(rules, n, y);
    }
  }

  /** No node is left out. */
  lemma EveryNodeIsListed(rules: seq<JsonValue>, x: Path) returns (n: Node)
    requires NodeAt(rules, x).Some?
    ensures n in Flattened(rules, |rules|) && n.path == x
  {
    n := BelowIsWalked(Root(rules, x.top), x.steps);
    assert [] + x.steps == x.steps;
    WalkedIsFlattened(rules, x.top, |rules|, n);
  }

  /** Rules one after the other, each in preorder; in particular no position is listed twice. */
  predicate PathPrecedes(x: Path, y: Path) {
    x.top < y.top || (x.top == y.top && Precedes(x.steps, y.steps))
  }

  lemma {:induction false} ListedInOrder(rules: seq<JsonValue>, m: nat, i: nat, j: nat)
    requires m <= |rules| && i < j < |Flattened(rules, m)|
    ensures PathPrecedes(Flattened(rules, m)[i].path, Flattened(rules, m)[j].path)
    decreases m
  {
    var front, last := Flattened(rules, m - 1), Walked(Root(rules, m - 1));
    var root := Root(rules, m - 1);
    if j < |front| {
      ListedInOrder(rules, m - 1, i, j);
    } else {
      WalkedInOrder(root);
      assert ListedBelow(root, last[j - |front|]);
      if i < |front| {
        FlattenedIsWalked(rules, m - 1, front[i]);
      } else {
        assert ListedBelow(root, last[i - |front|]);
        WaysFromRoot(root, last[i - |front|]);
        WaysFromRoot(root, last[j - |front|]);
      }
    }
  }

  lemma WaysFromRoot(root: Node, n: Node)
    requires root.path.steps == [] && root.path.steps <= n.path.steps
    ensures Way(root, n) == n.path.steps
  {
  }

  /** A rule set that changes no state has nothing marked. */
  lemma NoChangeNoMark(rules: seq<JsonValue>)
    requires forall y: Path | NodeAt(rules, y).Some? :: !ChangesState(NodeAt(rules, y).value)
    ensures forall n | n in Flattened(rules, |rules|) :: !n.precededByMutating
  {
    forall n | n in Flattened(rules, |rules|)
      ensures !n.precededByMutating
    {
      MarkedIffChangeBefore(rules, n);
    }
  }
}
