/** Renumbering the facts of a batch (evorule-eval/src/lib.rs, `renumber_facts`): global ids from one, with
    references mapped inside each segment that a Command opens. */
module Renumber {
  import opened Base
  import opened Facts

  /** The id a fact refers to: its cause, or the request it responds to. */
  function Ref(f: Fact): Option<FactId> {
    match f
    case StateTransition(_, cause, _, _) => Some(cause)
    case IoRequest(_, cause, _, _) => Some(cause)
    case IoResponse(_, requestId, _, _) => Some(requestId)
    case TransitionTrace(_, cause, _) => Some(cause)
    case Violation(_, cause, _, _, _) => Some(cause)
    case _ => None
  }

  /** The fact with another id and, where it has one, another reference. */
  function WithIds(f: Fact, id: FactId, ref: FactId): Fact {
    match f
    case Command(_, instruction) => Command(id, instruction)
    case PayloadUpdate(_, path, value) => PayloadUpdate(id, path, value)
    case StateTransition(_, _, payload, queue) => StateTransition(id, ref, payload, queue)
    case IoRequest(_, _, ioType, params) => IoRequest(id, ref, ioType, params)
    case IoResponse(_, _, result, error) => IoResponse(id, ref, result, error)
    case Stable(_, version) => Stable(id, version)
    case Error(_, message) => Error(id, message)
    case TransitionTrace(_, _, hits) => TransitionTrace(id, ref, hits)
    case Violation(_, _, index, reason, instruction) => Violation(id, ref, index, reason, instruction)
  }

  type IdMap = map<FactId, FactId>

  function Fix(m: IdMap, id: FactId): FactId {
    if id in m then m[id] else id
  }

  function FixRef(m: IdMap, f: Fact): FactId {
    if Ref(f).Some? then Fix(m, Ref(f).value) else 0
  }

  /** The map after `n` facts: emptied at each Command, then extended by the fact's own id. */
  function MapAfter(facts: seq<Fact>, n: nat): IdMap
    requires n <= |facts| < U64_SIZE
  {
    if n == 0 then map[]
    else (if facts[n - 1].Command? then map[] else MapAfter(facts, n - 1))[facts[n - 1].id := n]
  }

  function RenumberedAt(facts: seq<Fact>, i: nat): Fact
    requires i < |facts| < U64_SIZE
  {
    WithIds(facts[i], i + 1, FixRef(MapAfter(facts, i + 1), facts[i]))
  }

  function Renumbered(facts: seq<Fact>): seq<Fact>
    requires |facts| < U64_SIZE
  {
    seq(|facts|, i requires 0 <= i < |facts| => RenumberedAt(facts, i))
  }

  method RenumberFacts(facts: seq<Fact>) returns (out: seq<Fact>)
    requires |facts| < U64_SIZE
    ensures out == Renumbered(facts)
  {
    var idMap: IdMap := map[];
    var nextGlobal := 0;
    out := [];
    for i := 0 to |facts|
      invariant nextGlobal == i && idMap == MapAfter(facts, i)
      invariant |out| == i && forall j | 0 <= j < i :: out[j] == RenumberedAt(facts, j)
    {
      var fact := facts[i];
      if fact.Command? {
        idMap := map[];
      }
      nextGlobal := nextGlobal + 1;
      idMap := idMap[fact.id := nextGlobal];
      out := out + [WithIds(fact, nextGlobal, FixRef(idMap, fact))];
    }
  }

  // ---------------------------------------------------------------- ids and contents

  /** Ids are `1..n`, and apart from ids and references nothing changes, whatever the facts are. */
  lemma IdsAndContents(facts: seq<Fact>, i: nat)
    requires i < |facts| < U64_SIZE
    ensures Renumbered(facts)[i].id == i + 1
    ensures WithIds(Renumbered(facts)[i], 0, 0) == WithIds(facts[i], 0, 0)
    ensures Ref(Renumbered(facts)[i]).Some? <==> Ref(facts[i]).Some?
  {
  }

  // ---------------------------------------------------------------- references

  /** Where the segment of position `i` starts: at its last Command, or at the beginning. */
  function SegmentStart(facts: seq<Fact>, i: nat): (s: nat)
    requires i < |facts|
    ensures s <= i
  {
    if facts[i].Command? || i == 0 then i else SegmentStart(facts, i - 1)
  }

  /** `j` is the last position up to `i` in the same segment whose fact has the id `c`. */
  predicate LastWithId(facts: seq<Fact>, i: nat, c: FactId, j: nat) {
    && SegmentHas(facts, i, j) && facts[j].id == c
    && forall k | j < k <= i :: facts[k].id != c
  }

  predicate SegmentHas(facts: seq<Fact>, i: nat, j: nat) {
    i < |facts| && SegmentStart(facts, i) <= j <= i
  }

  lemma {:induction false} MapIsLastPosition(facts: seq<Fact>, i: nat, c: FactId)
    requires i < |facts| < U64_SIZE
    ensures var m := MapAfter(facts, i + 1);
            c in m ==> m[c] > 0 && LastWithId(facts, i, c, m[c] - 1)
    ensures c !in MapAfter(facts, i + 1) ==> forall j: nat | SegmentHas(facts, i, j) :: facts[j].id != c
  {
    if !facts[i].Command? && i > 0 {
      MapIsLastPosition(facts, i - 1, c);
    }
  }

  /** A reference is moved to the last fact of its own segment that has that id, up to and including the
      referring fact itself; a reference to an id not in the segment is left alone. */
  lemma ReferencesFollow(facts: seq<Fact>, i: nat)
    requires i < |facts| < U64_SIZE && Ref(facts[i]).Some?
    ensures var c, r := Ref(facts[i]).value, Ref(Renumbered(facts)[i]).value;
            (exists j: nat :: LastWithId(facts, i, c, j) && r == Renumbered(facts)[j].id)
            || ((forall j: nat | SegmentHas(facts, i, j) :: facts[j].id != c) && r == c)
  {
    var c := Ref(facts[i]).value;
    MapIsLastPosition(facts, i, c);
    var m := MapAfter(facts, i + 1);
    if c in m {
      assert LastWithId(facts, i, c, m[c] - 1);
      IdsAndContents(facts, m[c] - 1);
    }
  }

  /** The ids inside every segment differ. */
  predicate DistinctInSegments(facts: seq<Fact>) {
    forall i, j | 0 <= j < i < |facts| && SegmentStart(facts, i) <= j :: facts[j].id != facts[i].id
  }

  lemma {:induction false} SameSegment(facts: seq<Fact>, i: nat, j: nat)
    requires i < |facts| && SegmentStart(facts, i) <= j <= i
    ensures SegmentStart(facts, j) == SegmentStart(facts, i)
  {
    if j < i {
      SameSegment(facts, i - 1, j);
    }
  }

  /** Causality is preserved: with distinct ids in each segment, a fact that refers to the fact at `j` of its
      own segment still refers to the fact at `j`, under its new id. */
  lemma CausalityIsPreserved(facts: seq<Fact>, i: nat, j: nat)
    requires |facts| < U64_SIZE && DistinctInSegments(facts) && SegmentHas(facts, i, j)
    requires Ref(facts[i]) == Some(facts[j].id)
    ensures Ref(Renumbered(facts)[i]) == Some(Renumbered(facts)[j].id)
  {
    var c := facts[j].id;
    MapIsLastPosition(facts, i, c);
    var m := MapAfter(facts, i + 1);
    assert c in m;
    var l := m[c] - 1;
    assert LastWithId(facts, i, c, l);
    SameSegment(facts, i, l);
    SameSegment(facts, i, j);
    assert l == j;
  }

  // ---------------------------------------------------------------- idempotence

  lemma {:induction false} MapIsIdentity(facts: seq<Fact>, n: nat)
    requires n <= |facts| < U64_SIZE && forall i | 0 <= i < |facts| :: facts[i].id == i + 1
    ensures forall c | c in MapAfter(facts, n) :: MapAfter(facts, n)[c] == c
  {
    if n > 0 {
      MapIsIdentity(facts, n - 1);
    }
  }

  /** Renumbering twice is renumbering once, whatever the facts are. */
  lemma Idempotent(facts: seq<Fact>)
    requires |facts| < U64_SIZE
    ensures Renumbered(Renumbered(facts)) == Renumbered(facts)
  {
    var once := Renumbered(facts);
    forall i | 0 <= i < |once|
      ensures RenumberedAt(once, i) == once[i]
    {
      MapIsIdentity(once, i + 1);
    }
  }
}
