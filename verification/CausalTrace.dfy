/** Tracing causes through an audited executor log (evorule-governance/src/auditor.rs, `causal_chain`). */
module CausalTrace {
  import opened Base
  import opened Facts
  import opened HashChain
  import opened Auditor
  import opened AuditRuns
  import opened Executor
  import opened ExecutorLaws

  // ---------------------------------------------------------------- when tracing ends

  ghost predicate Ends(s: Core, id: FactId)
    requires Indexed(s)
  {
    exists n: nat :: EndsWithin(s, id, n)
  }

  lemma {:induction false} EndsSooner(s: Core, id: FactId, m: nat, n: nat)
    requires Indexed(s) && EndsWithin(s, id, m) && m <= n
    ensures EndsWithin(s, id, n) && TraceFor(s, id, n) == TraceFor(s, id, m)
    decreases m
  {
    if id in s.index && s.entries[s.index[id]].cause.Some? {
      EndsSooner(s, s.entries[s.index[id]].cause.value, m - 1, n - 1);
    }
  }

  /** The positions of a walk that lists exactly `n` entries; none of them occurs twice. */
  lemma {:induction false} PositionsOfWalk(s: Core, id: FactId, n: nat) returns (positions: set<nat>)
    requires Indexed(s) && EndsWithin(s, id, n) && (n > 0 ==> !EndsWithin(s, id, n - 1))
    ensures |positions| == n
    ensures forall p | p in positions :: p < |s.entries| && PositionEnds(s, p, n)
    decreases n
  {
    positions := {};
    if n > 0 {
      var p := s.index[id];
      var cause := s.entries[p].cause;
      if n > 1 {
        positions := PositionsOfWalk(s, cause.value, n - 1);
        forall q | q in positions
          ensures PositionEnds(s, q, n)
        {
          PositionEndsSooner(s, q, n - 1);
        }
      }
      positions := positions + {p};
    }
  }

  lemma PositionEndsSooner(s: Core, position: nat, n: nat)
    requires Indexed(s) && position < |s.entries| && PositionEnds(s, position, n)
    ensures PositionEnds(s, position, n + 1)
  {
    if s.entries[position].cause.Some? {
      EndsSooner(s, s.entries[position].cause.value, n - 1, n);
    }
  }

  lemma {:induction false} FewBelow(positions: set<nat>, n: nat)
    requires forall p | p in positions :: p < n
    ensures |positions| <= n
  {
    if n > 0 {
      FewBelow(positions - {n - 1}, n - 1);
      assert |positions| <= |positions - {n - 1}| + 1 by {
        assert positions <= (positions - {n - 1}) + {n - 1};
        SmallerSet(positions, (positions - {n - 1}) + {n - 1});
      }
    } else {
      assert positions == {};
    }
  }

  lemma {:induction false} SmallerSet(a: set<nat>, b: set<nat>)
    requires a <= b
    ensures |a| <= |b|
  {
    if a != {} {
      var x :| x in a;
      SmallerSet(a - {x}, b - {x});
    }
  }

  lemma {:induction false} FirstEnd(s: Core, id: FactId, n: nat) returns (m: nat)
    requires Indexed(s) && EndsWithin(s, id, n)
    ensures EndsWithin(s, id, m) && (m > 0 ==> !EndsWithin(s, id, m - 1))
  {
    m := n;
    if n > 0 && EndsWithin(s, id, n - 1) {
      m := FirstEnd(s, id, n - 1);
    }
  }

  /** Tracing from `id` ends exactly when it ends within as many steps as there are entries. */
  lemma EndsIffWithinEntries(s: Core, id: FactId)
    requires Indexed(s)
    ensures Ends(s, id) <==> EndsWithin(s, id, |s.entries|)
  {
    if Ends(s, id) {
      var n: nat :| EndsWithin(s, id, n);
      var m := FirstEnd(s, id, n);
      var positions := PositionsOfWalk(s, id, m);
      FewBelow(positions, |s.entries|);
      EndsSooner(s, id, m, |s.entries|);
    }
  }

  /** An entry that names itself as its cause is traced forever. */
  lemma {:induction false} SelfCauseNeverEnds(s: Core, id: FactId, n: nat)
    requires Indexed(s) && id in s.index && s.entries[s.index[id]].cause == Some(id)
    ensures !EndsWithin(s, id, n)
  {
    if n > 0 {
      SelfCauseNeverEnds(s, id, n - 1);
    }
  }

  /** Such a core is reached by auditing one fact: a state transition that is its own cause. */
  lemma SelfCausedFactIsTracedForever(k: Kernel, id: FactId, payload: Json.JsonValue, queue: seq<Json.JsonValue>)
    ensures var s := AuditAll(k, EMPTY, [StateTransition(id, id, payload, queue)]); Indexed(s) && !Ends(s, id)
  {
    var f := StateTransition(id, id, payload, queue);
    AuditedIsIndexed(k, [f]);
    EntriesDescribe(k, [f], 0);
    IndexIsLastPosition(k, [f], id);
    assert [f][0].id == id && HasId([f], id);
    var s := AuditAll(k, EMPTY, [f]);
    forall n: nat
      ensures !EndsWithin(s, id, n)
    {
      SelfCauseNeverEnds(s, id, n);
    }
  }

  // ---------------------------------------------------------------- causes that lie earlier

  lemma AuditedIsIndexed(k: Kernel, facts: seq<Fact>)
    ensures Indexed(AuditAll(k, EMPTY, facts))
  {
    var s := AuditAll(k, EMPTY, facts);
    AuditAllLengths(k, EMPTY, facts);
    forall id | id in s.index
      ensures s.index[id] < |s.entries|
    {
      IndexIsLastPosition(k, facts, id);
    }
  }

  predicate IndexesFirst(s: Loaded, n: nat) {
    |s.entries| == n && forall id | id in s.index :: s.index[id] < n
  }

  lemma LoadOneIsIndexed(k: Kernel, s: Loaded, r: WalRecord, i: nat)
    requires IndexesFirst(s, i)
    ensures IndexesFirst(LoadOne(k, s, r, i), i + 1)
  {
  }

  lemma OneMoreIndexed(k: Kernel, records: seq<WalRecord>, n: nat)
    requires n < |records| && IndexesFirst(LoadAll(k, records, n), n)
    ensures IndexesFirst(LoadAll(k, records, n + 1), n + 1)
  {
    LoadOneIsIndexed(k, LoadAll(k, records, n), records[n], n);
  }

  lemma {:induction false} LoadAllIsIndexed(k: Kernel, records: seq<WalRecord>, n: nat)
    requires n <= |records|
    ensures IndexesFirst(LoadAll(k, records, n), n)
  {
    if n > 0 {
      LoadAllIsIndexed(k, records, n - 1);
      OneMoreIndexed(k, records, n - 1);
    }
  }

  lemma LoadedIsIndexed(k: Kernel, records: seq<WalRecord>, n: nat, clock: nat)
    requires n <= |records|
    ensures |LoadedCore(k, records, n, clock).entries| == n && Indexed(LoadedCore(k, records, n, clock))
  {
    LoadAllIsIndexed(k, records, n);
  }

  /** Every indexed cause of an entry lies strictly earlier. */
  ghost predicate CausesAreEarlier(s: Core) {
    && Indexed(s)
    && (forall i | 0 <= i < |s.entries| && s.entries[i].cause.Some? && s.entries[i].cause.value in s.index ::
          s.index[s.entries[i].cause.value] < i)
  }

  /** For audited facts that is: a cause that occurs at all occurs for the last time before the fact it caused. */
  ghost predicate FactsAreCausedEarlier(facts: seq<Fact>) {
    forall i, p: nat | 0 <= i < |facts| && ExtractCause(facts[i]).Some?
      && LastAt(facts, ExtractCause(facts[i]).value, p) :: p < i
  }

  lemma AuditedCausesAreEarlier(k: Kernel, facts: seq<Fact>)
    ensures CausesAreEarlier(AuditAll(k, EMPTY, facts)) <==> FactsAreCausedEarlier(facts)
  {
    var s := AuditAll(k, EMPTY, facts);
    AuditAllLengths(k, EMPTY, facts);
    AuditedIsIndexed(k, facts);
    forall i | 0 <= i < |facts|
      ensures s.entries[i].cause == ExtractCause(facts[i])
    {
      EntriesDescribe(k, facts, i);
    }
    forall id, p: nat | LastAt(facts, id, p)
      ensures id in s.index && s.index[id] == p
    {
      IndexIsLastPosition(k, facts, id);
      assert facts[p].id == id;
    }
    forall id | id in s.index
      ensures LastAt(facts, id, s.index[id])
    {
      IndexIsLastPosition(k, facts, id);
    }
  }

  /** Tracing then ends from every id. */
  lemma {:induction false} EarlierCausesEnd(s: Core, id: FactId)
    requires CausesAreEarlier(s)
    ensures EndsWithin(s, id, |s.entries|)
  {
    if id in s.index {
      EarlierPositionEnds(s, s.index[id]);
      EndsSooner(s, id, s.index[id] + 1, |s.entries|);
    }
  }

  lemma {:induction false} EarlierPositionEnds(s: Core, position: nat)
    requires CausesAreEarlier(s) && position < |s.entries|
    ensures PositionEnds(s, position, position + 1)
    decreases position
  {
    var cause := s.entries[position].cause;
    if cause.Some? && cause.value in s.index {
      EarlierPositionEnds(s, s.index[cause.value]);
      EndsSooner(s, cause.value, s.index[cause.value] + 1, position);
    }
  }

  // ---------------------------------------------------------------- executor logs

  /** In a log numbered from one, an id is indexed at the position before it. */
  lemma IndexIsIdMinusOne(k: Kernel, facts: seq<Fact>, maxSteps: nat, id: FactId)
    requires WellFormed(facts, maxSteps)
    ensures var index := AuditAll(k, EMPTY, facts).index;
            (id in index <==> 1 <= id <= |facts|) && (id in index ==> index[id] == id - 1)
  {
    IndexIsLastPosition(k, facts, id);
    if 1 <= id <= |facts| {
      assert Fits(facts, id - 1);
    }
    if id in AuditAll(k, EMPTY, facts).index {
      assert Fits(facts, AuditAll(k, EMPTY, facts).index[id]);
    }
  }

  /** The auditor's core as tracing sees it: each id one past its position, each cause that of the fact. */
  ghost predicate Mirrors(core: Core, facts: seq<Fact>) {
    && |core.entries| == |facts|
    && (forall id: FactId :: id in core.index <==> 1 <= id <= |facts|)
    && (forall id | id in core.index :: core.index[id] == id - 1)
    && (forall i | 0 <= i < |facts| :: core.entries[i].cause == ExtractCause(facts[i]))
  }

  lemma AuditMirrors(k: Kernel, facts: seq<Fact>, maxSteps: nat)
    requires WellFormed(facts, maxSteps)
    ensures Mirrors(AuditAll(k, EMPTY, facts), facts)
  {
    AuditAllLengths(k, EMPTY, facts);
    forall id: FactId
      ensures id in AuditAll(k, EMPTY, facts).index <==> 1 <= id <= |facts|
      ensures id in AuditAll(k, EMPTY, facts).index ==> AuditAll(k, EMPTY, facts).index[id] == id - 1
    {
      IndexIsIdMinusOne(k, facts, maxSteps, id);
    }
    forall i | 0 <= i < |facts|
      ensures AuditAll(k, EMPTY, facts).entries[i].cause == ExtractCause(facts[i])
    {
      EntriesDescribe(k, facts, i);
    }
  }

  /** Every cause in an executor log is strictly earlier, so tracing ends. */
  lemma LogCausesAreEarlier(core: Core, facts: seq<Fact>, maxSteps: nat)
    requires WellFormed(facts, maxSteps) && Mirrors(core, facts)
    ensures CausesAreEarlier(core)
  {
    forall i | 0 <= i < |core.entries| && core.entries[i].cause.Some? && core.entries[i].cause.value in core.index
      ensures core.index[core.entries[i].cause.value] < i
    {
      assert Fits(facts, i);
    }
  }

  predicate AllBelow(positions: seq<nat>, n: nat) {
    forall i | 0 <= i < |positions| :: positions[i] < n
  }

  /** The command and the state transitions before position `n`, latest first. */
  function MoversBefore(facts: seq<Fact>, n: nat): (r: seq<nat>)
    requires n <= |facts|
    ensures AllBelow(r, n)
  {
    if n == 0 then []
    else if facts[n - 1].Command? || facts[n - 1].StateTransition? then [n - 1] + MoversBefore(facts, n - 1)
    else MoversBefore(facts, n - 1)
  }

  lemma {:induction false} MoversStartAtMover(facts: seq<Fact>, n: nat)
    requires 0 < n <= |facts| && facts[0].Command?
    ensures MoversBefore(facts, n) == [Mover(facts, n)] + MoversBefore(facts, Mover(facts, n))
  {
    if n > 1 && !facts[n - 1].Command? && !facts[n - 1].StateTransition? {
      MoversStartAtMover(facts, n - 1);
    }
  }

  /** Every state transition before `n` is among the movers. */
  lemma {:induction false} MoversAreAll(facts: seq<Fact>, n: nat, p: nat)
    requires p < n <= |facts|
    ensures p in MoversBefore(facts, n) <==> facts[p].Command? || facts[p].StateTransition?
  {
    if p < n - 1 {
      MoversAreAll(facts, n - 1, p);
    } else {
      assert p !in MoversBefore(facts, n - 1);
    }
  }

  function EntriesAt(entries: seq<AuditEntry>, positions: seq<nat>): seq<AuditEntry>
    requires AllBelow(positions, |entries|)
  {
    if positions == [] then [] else [entries[positions[0]]] + EntriesAt(entries, positions[1..])
  }

  lemma EntriesAtCons(entries: seq<AuditEntry>, p: nat, rest: seq<nat>)
    requires p < |entries| && AllBelow(rest, |entries|)
    ensures AllBelow([p] + rest, |entries|)
    ensures EntriesAt(entries, [p] + rest) == [entries[p]] + EntriesAt(entries, rest)
  {
    assert ([p] + rest)[1..] == rest;
  }

  predicate Traceable(f: Fact) {
    f.Command? || f.StateTransition? || f.IoRequest?
  }

  /** Tracing from a state transition or an I/O request lists that entry, then every earlier state transition
      in reverse, and last the command. */
  lemma {:induction false} TraceListsMovers(core: Core, facts: seq<Fact>, maxSteps: nat, i: nat)
    requires WellFormed(facts, maxSteps) && Mirrors(core, facts) && CausesAreEarlier(core)
    requires i < |facts| && Traceable(facts[i])
    ensures TraceFrom(core, facts[i].id) == EntriesAt(core.entries, [i] + MoversBefore(facts, i))
  {
    TraceStep(core, facts, maxSteps, i);
    EntriesAtCons(core.entries, i, MoversBefore(facts, i));
    if i > 0 {
      MoversStartAtMover(facts, i);
      TraceListsMovers(core, facts, maxSteps, Mover(facts, i));
      assert Fits(facts, Mover(facts, i));
    }
  }

  lemma TraceStep(core: Core, facts: seq<Fact>, maxSteps: nat, i: nat)
    requires WellFormed(facts, maxSteps) && Mirrors(core, facts) && CausesAreEarlier(core)
    requires i < |facts| && Traceable(facts[i])
    ensures facts[i].id == i + 1
    ensures TraceFrom(core, i + 1) == [core.entries[i]] + if i == 0 then [] else TraceFrom(core, Mover(facts, i) + 1)
  {
    TraceableCause(core, facts, maxSteps, i);
    TraceUnfolds(core, i + 1);
  }

  lemma TraceableCause(core: Core, facts: seq<Fact>, maxSteps: nat, i: nat)
    requires WellFormed(facts, maxSteps) && Mirrors(core, facts)
    requires i < |facts| && Traceable(facts[i])
    ensures facts[i].id == i + 1 && i + 1 in core.index && core.index[i + 1] == i
    ensures core.entries[i].cause == if i == 0 then None else Some(Mover(facts, i) + 1)
  {
    assert Fits(facts, i);
    assert core.entries[i].cause == ExtractCause(facts[i]);
  }

  lemma TraceUnfolds(s: Core, id: FactId)
    requires CausesAreEarlier(s) && id in s.index
    ensures var e := s.entries[s.index[id]];
            TraceFrom(s, id) == [e] + if e.cause.Some? then TraceFrom(s, e.cause.value) else []
  {
    EarlierCausesEnd(s, id);
    var cause := s.entries[s.index[id]].cause;
    if cause.Some? {
      EndsSooner(s, cause.value, |s.entries| - 1, |s.entries|);
    }
  }

  /** The theorem for the executor's own logs: tracing ends and reads the execution backwards. */
  lemma ExecutionIsTraced(m: Machine, k: Kernel, payload: Json.JsonValue, instruction: Json.JsonValue, maxSteps: nat, i: nat)
    requires maxSteps + 4 < U64_SIZE && i < |Log(m, payload, instruction, maxSteps)|
    requires var f := Log(m, payload, instruction, maxSteps)[i]; f.StateTransition? || f.IoRequest?
    ensures var log := Log(m, payload, instruction, maxSteps);
            var core := AuditAll(k, EMPTY, log);
            && CausesAreEarlier(core) && |core.entries| == |log|
            && TraceFrom(core, log[i].id) == EntriesAt(core.entries, [i] + MoversBefore(log, i))
            && 0 in MoversBefore(log, i)
  {
    var log := Log(m, payload, instruction, maxSteps);
    LogIsWellFormed(m, payload, instruction, maxSteps);
    AuditMirrors(k, log, maxSteps);
    LogCausesAreEarlier(AuditAll(k, EMPTY, log), log, maxSteps);
    TraceListsMovers(AuditAll(k, EMPTY, log), log, maxSteps, i);
    assert Fits(log, i);
    MoversAreAll(log, i, 0);
  }

  // ---------------------------------------------------------------- what a trace is

  /** Each entry listed is the one its predecessor names as its cause; the first is that of `id`, and the last
      names no cause, or one that is not indexed. */
  predicate IsTrace(s: Core, id: FactId, t: seq<AuditEntry>)
    requires Indexed(s)
  {
    && (t == [] <==> id !in s.index)
    && (t != [] ==> t[0] == s.entries[s.index[id]])
    && (forall i | 0 <= i < |t| - 1 :: CausedBy(s, t[i], t[i + 1]))
    && (t != [] && t[|t| - 1].cause.Some? ==> t[|t| - 1].cause.value !in s.index)
  }

  predicate CausedBy(s: Core, e: AuditEntry, parent: AuditEntry)
    requires Indexed(s)
  {
    e.cause.Some? && e.cause.value in s.index && parent == s.entries[s.index[e.cause.value]]
  }

  /** Where the walk ends, what it lists is the trace, of which there is only one. */
  lemma {:induction false} TraceIsTheTrace(s: Core, id: FactId, n: nat)
    requires Indexed(s) && EndsWithin(s, id, n)
    ensures IsTrace(s, id, TraceFor(s, id, n)) && |TraceFor(s, id, n)| <= n
    decreases n
  {
    if id in s.index {
      var e := s.entries[s.index[id]];
      var t := TraceFor(s, id, n);
      if e.cause.Some? {
        var rest := TraceFor(s, e.cause.value, n - 1);
        TraceIsTheTrace(s, e.cause.value, n - 1);
        assert t == [e] + rest;
        forall i | 0 <= i < |t| - 1
          ensures CausedBy(s, t[i], t[i + 1])
        {
          if i > 0 {
            assert CausedBy(s, rest[i - 1], rest[i]);
          }
        }
      } else {
        assert t == [e];
      }
    }
  }

  lemma {:induction false} TracesAreTheSame(s: Core, id: FactId, t: seq<AuditEntry>, u: seq<AuditEntry>)
    requires Indexed(s) && IsTrace(s, id, t) && IsTrace(s, id, u)
    ensures t == u
    decreases |t|
  {
    if t != [] {
      var cause := t[0].cause;
      if |t| > 1 {
        assert CausedBy(s, t[0], t[1]);
      }
      if |u| > 1 {
        assert CausedBy(s, u[0], u[1]);
      }
      if |t| > 1 && |u| > 1 {
        TraceTail(s, id, t);
        TraceTail(s, id, u);
        TracesAreTheSame(s, cause.value, t[1..], u[1..]);
        assert t == [t[0]] + t[1..] && u == [u[0]] + u[1..];
      }
    }
  }

  lemma TraceTail(s: Core, id: FactId, t: seq<AuditEntry>)
    requires Indexed(s) && IsTrace(s, id, t) && |t| > 1
    ensures t[0].cause.Some? && IsTrace(s, t[0].cause.value, t[1..])
  {
    assert CausedBy(s, t[0], t[1]);
    forall i | 0 <= i < |t[1..]| - 1
      ensures CausedBy(s, t[1..][i], t[1..][i + 1])
    {
      assert CausedBy(s, t[i + 1], t[i + 2]);
    }
  }
}
