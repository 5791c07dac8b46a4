/** The audit hash chain (evorule-audit-chain/src/hash.rs). BLAKE3 and serde_json's text
    printer and reader are library code: they are arbitrary functions here, and the
    properties assumed of them are stated where they are used. */
module HashChain {
  import opened Base
  import opened Json
  import opened Facts
  import opened StableJson

  /** `render` may fail (`serde_json::to_string` returns a Result); `parse` is `from_str`. */
  datatype Kernel = Kernel(blake3: string -> string, render: Jv -> Option<string>, parse: string -> Option<Jv>)

  datatype HashError = Unprintable(json: Jv)

  const GENESIS: string := "genesis"

  const HEX: string := "0123456789abcdef"

  ghost predicate IsDigest(s: string) {
    |s| == 64 && forall c | c in s :: c in HEX
  }

  /** Every digest is 64 hexadecimal characters. */
  ghost predicate Digests(k: Kernel) {
    forall s: string :: IsDigest(k.blake3(s))
  }

  /** Facts that print alike have the same stable form. Nothing is asked of values that are the stable
      form of no fact (floats, for one), nor of values the printer refuses. */
  ghost predicate PrintsApart(k: Kernel) {
    forall f: Fact, g: Fact :: PrintAlike(k, f, g) ==> StableForm(f) == StableForm(g)
  }

  ghost predicate PrintAlike(k: Kernel, f: Fact, g: Fact) {
    k.render(StableForm(f)).Some? && k.render(StableForm(f)) == k.render(StableForm(g))
  }

  ghost predicate WellBehaved(k: Kernel) {
    Digests(k) && PrintsApart(k)
  }

  /** No two of the strings in `hashed` have the same digest. Only finitely many strings are
      ever named, because no function into 64-character strings is injective everywhere. */
  ghost predicate NoCollision(k: Kernel, hashed: set<string>) {
    forall x, y {:trigger Collide(k, x, y)} | x in hashed && y in hashed :: !Collide(k, x, y)
  }

  predicate Collide(k: Kernel, x: string, y: string) {
    x != y && k.blake3(x) == k.blake3(y)
  }

  // ---------------------------------------------------------------- definitions

  function FactHash(k: Kernel, f: Fact): Result<string, HashError> {
    var j := StableForm(f);
    match k.render(j)
    case None => Err(Unprintable(j))
    case Some(text) => Ok(k.blake3(text))
  }

  function ChainStep(k: Kernel, prev: string, content: string): string {
    k.blake3(prev + content)
  }

  /** The chain head over a list of content hashes. */
  function Fold(k: Kernel, contents: seq<string>): string {
    if contents == [] then GENESIS
    else ChainStep(k, Fold(k, contents[..|contents| - 1]), contents[|contents| - 1])
  }

  /** The chain head over a list of facts; the first fact that cannot be hashed is the error. */
  function ChainHash(k: Kernel, facts: seq<Fact>): Result<string, HashError> {
    if facts == [] then Ok(GENESIS)
    else
      var prev :- ChainHash(k, facts[..|facts| - 1]);
      var content :- FactHash(k, facts[|facts| - 1]);
      Ok(ChainStep(k, prev, content))
  }

  method ComputeChainHash(k: Kernel, facts: seq<Fact>) returns (r: Result<string, HashError>)
    ensures r == ChainHash(k, facts)
  {
    if facts == [] {
      return Ok(GENESIS);
    }
    var prev := GENESIS;
    for i := 0 to |facts|
      invariant ChainHash(k, facts[..i]) == Ok(prev)
    {
      assert facts[..i + 1][..i] == facts[..i];
      var content := FactHash(k, facts[i]);
      if content.Err? {
        ErrorSticks(k, facts, i + 1);
        return Err(content.error);
      }
      prev := ChainStep(k, prev, content.value);
    }
    assert facts[..|facts|] == facts;
    return Ok(prev);
  }

  /** The chain hash in the hash function's own terms: of no facts it is "genesis", and each fact's printed stable
      form is hashed, appended to the hash so far, and the whole hashed again. */
  lemma ChainSpelt(k: Kernel, facts: seq<Fact>, f: Fact, g: Fact)
    requires k.render(StableForm(f)).Some? && k.render(StableForm(g)).Some?
    ensures ChainHash(k, []) == Ok("genesis")
    ensures ChainHash(k, [f]) == Ok(k.blake3("genesis" + k.blake3(k.render(StableForm(f)).value)))
    ensures ChainHash(k, facts).Ok? ==>
              ChainHash(k, facts + [f, g])
              == Ok(k.blake3(k.blake3(ChainHash(k, facts).value + k.blake3(k.render(StableForm(f)).value))
                             + k.blake3(k.render(StableForm(g)).value)))
  {
    assert [f][..0] == [] && facts + [f, g] == facts + [f] + [g];
    assert (facts + [f])[..|facts|] == facts && (facts + [f] + [g])[..|facts| + 1] == facts + [f];
  }

  // ---------------------------------------------------------------- fold lemmas

  lemma {:induction false} ErrorSticks(k: Kernel, facts: seq<Fact>, n: nat)
    requires n <= |facts| && ChainHash(k, facts[..n]).Err?
    ensures ChainHash(k, facts) == ChainHash(k, facts[..n])
    decreases |facts| - n
  {
    if n == |facts| {
      assert facts[..n] == facts;
    } else {
      assert facts[..n + 1][..n] == facts[..n];
      ErrorSticks(k, facts, n + 1);
    }
  }

  /** Every fact can be printed, hence hashed. */
  ghost predicate Hashable(k: Kernel, facts: seq<Fact>) {
    forall i | 0 <= i < |facts| :: FactHash(k, facts[i]).Ok?
  }

  /** The content hashes of facts that can all be hashed. */
  ghost function Contents(k: Kernel, facts: seq<Fact>): seq<string>
    requires Hashable(k, facts)
  {
    seq(|facts|, i requires 0 <= i < |facts| => FactHash(k, facts[i]).value)
  }

  /** The chain hash exists exactly when every fact can be hashed, and is then the fold of the content hashes. */
  lemma {:induction false} ChainHashIsFold(k: Kernel, facts: seq<Fact>)
    ensures ChainHash(k, facts).Ok? <==> Hashable(k, facts)
    ensures ChainHash(k, facts).Ok? ==> ChainHash(k, facts).value == Fold(k, Contents(k, facts))
  {
    if facts != [] {
      var n := |facts| - 1;
      var front := facts[..n];
      ChainHashIsFold(k, front);
      if ChainHash(k, front).Ok? && FactHash(k, facts[n]).Ok? {
        forall i | 0 <= i < |facts|
          ensures FactHash(k, facts[i]).Ok?
        {
          assert i < n ==> facts[i] == front[i];
        }
        assert Contents(k, facts)[..n] == Contents(k, front);
      } else if ChainHash(k, front).Err? {
        var i :| 0 <= i < n && FactHash(k, front[i]).Err?;
        assert facts[i] == front[i];
      }
    }
  }

  // ---------------------------------------------------------------- the chain pins the history

  /** The strings hashed while folding. */
  ghost function FoldInputs(k: Kernel, contents: seq<string>): set<string> {
    if contents == [] then {}
    else
      var n := |contents| - 1;
      FoldInputs(k, contents[..n]) + {Fold(k, contents[..n]) + contents[n]}
  }

  /** The printed facts, hashed for their content hashes. */
  ghost function PrintedFacts(k: Kernel, facts: seq<Fact>): set<string>
    requires Hashable(k, facts)
  {
    set i | 0 <= i < |facts| && FactHash(k, facts[i]).Ok? :: k.render(StableForm(facts[i])).value
  }

  /** Every string hashed while computing the chain hash of hashable facts. */
  ghost function HashedStrings(k: Kernel, facts: seq<Fact>): set<string> {
    if Hashable(k, facts) then FoldInputs(k, Contents(k, facts)) + PrintedFacts(k, facts) else {}
  }

  lemma FoldLength(k: Kernel, contents: seq<string>)
    requires Digests(k)
    ensures |Fold(k, contents)| == if contents == [] then 7 else 64
  {
  }

  ghost predicate AllDigests(contents: seq<string>) {
    forall i | 0 <= i < |contents| :: |contents[i]| == 64
  }

  lemma ContentsAreDigests(k: Kernel, facts: seq<Fact>)
    requires Digests(k) && Hashable(k, facts)
    ensures AllDigests(Contents(k, facts))
  {
  }

  /** One link: with 64-character content hashes, an equal digest fixes both halves of its input. */
  lemma LinkPins(k: Kernel, hashed: set<string>, p: string, c: string, q: string, d: string)
    requires NoCollision(k, hashed) && p + c in hashed && q + d in hashed
    requires ChainStep(k, p, c) == ChainStep(k, q, d) && |c| == |d|
    ensures p == q && c == d
  {
    assert !Collide(k, p + c, q + d);
    SplitFromRight(p, c, q, d);
  }

  lemma NoCollisionSubset(k: Kernel, small: set<string>, big: set<string>)
    requires small <= big && NoCollision(k, big)
    ensures NoCollision(k, small)
  {
  }

  /** Equal heads over 64-character content hashes mean equal lists, whatever their lengths. */
  lemma {:induction false} FoldPinsContents(k: Kernel, a: seq<string>, b: seq<string>)
    requires Digests(k) && AllDigests(a) && AllDigests(b)
    requires NoCollision(k, FoldInputs(k, a) + FoldInputs(k, b))
    requires Fold(k, a) == Fold(k, b)
    ensures a == b
  {
    FoldLength(k, a);
    FoldLength(k, b);
    if a != [] && b != [] {
      var fa, fb := a[..|a| - 1], b[..|b| - 1];
      var c, d := a[|a| - 1], b[|b| - 1];
      var hashed := FoldInputs(k, a) + FoldInputs(k, b);
      LinkPins(k, hashed, Fold(k, fa), c, Fold(k, fb), d);
      NoCollisionSubset(k, FoldInputs(k, fa) + FoldInputs(k, fb), hashed);
      FoldPinsContents(k, fa, fb);
      assert a == fa + [c] && b == fb + [d];
    }
  }

  /** The same facts up to stable JSON, position by position. */
  ghost predicate SameHistory(a: seq<Fact>, b: seq<Fact>) {
    |a| == |b| && forall i | 0 <= i < |a| :: StableForm(a[i]) == StableForm(b[i])
  }

  lemma ContentPinsFact(k: Kernel, hashed: set<string>, f: Fact, g: Fact)
    requires PrintsApart(k) && NoCollision(k, hashed)
    requires FactHash(k, f).Ok? && FactHash(k, f) == FactHash(k, g)
    requires k.render(StableForm(f)).value in hashed && k.render(StableForm(g)).value in hashed
    ensures StableForm(f) == StableForm(g)
  {
    assert !Collide(k, k.render(StableForm(f)).value, k.render(StableForm(g)).value);
    assert PrintAlike(k, f, g);
  }

  lemma ContentsPinFacts(k: Kernel, a: seq<Fact>, b: seq<Fact>)
    requires PrintsApart(k) && Hashable(k, a) && Hashable(k, b)
    requires NoCollision(k, PrintedFacts(k, a) + PrintedFacts(k, b))
    requires Contents(k, a) == Contents(k, b)
    ensures SameHistory(a, b)
    ensures |a| == |b| && forall i | 0 <= i < |a| :: CanonicalFact(a[i]) == CanonicalFact(b[i])
  {
    assert |Contents(k, a)| == |a| && |Contents(k, b)| == |b|;
    forall i | 0 <= i < |a|
      ensures StableForm(a[i]) == StableForm(b[i]) && CanonicalFact(a[i]) == CanonicalFact(b[i])
    {
      assert Contents(k, a)[i] == Contents(k, b)[i];
      ContentPinsFact(k, PrintedFacts(k, a) + PrintedFacts(k, b), a[i], b[i]);
      SameStableIffSameCanonical(a[i], b[i]);
    }
  }

  /** Two fact lists of any lengths with the same chain hash are the same history,
      unless two of the strings hashed on the way collide. */
  lemma {:induction false} ChainPinsHistory(k: Kernel, a: seq<Fact>, b: seq<Fact>)
    requires WellBehaved(k) && Hashable(k, a) && Hashable(k, b)
    requires ChainHash(k, a) == ChainHash(k, b)
    requires NoCollision(k, HashedStrings(k, a) + HashedStrings(k, b))
    ensures SameHistory(a, b)
    ensures |a| == |b| && forall i | 0 <= i < |a| :: CanonicalFact(a[i]) == CanonicalFact(b[i])
  {
    ChainHashIsFold(k, a);
    ChainHashIsFold(k, b);
    var ca, cb := Contents(k, a), Contents(k, b);
    var hashed := HashedStrings(k, a) + HashedStrings(k, b);
    NoCollisionSubset(k, FoldInputs(k, ca) + FoldInputs(k, cb), hashed);
    ContentsAreDigests(k, a);
    ContentsAreDigests(k, b);
    FoldPinsContents(k, ca, cb);
    NoCollisionSubset(k, PrintedFacts(k, a) + PrintedFacts(k, b), hashed);
    ContentsPinFacts(k, a, b);
  }

  /** The hypotheses can be met: for any fact there is a kernel that is well behaved, hashes it, and does so
      without a collision. */
  lemma HypothesesCanBeMet(f: Fact) returns (k: Kernel)
    ensures WellBehaved(k) && Hashable(k, [f]) && NoCollision(k, HashedStrings(k, [f]))
  {
    var text := "fact";
    var zeros, ones := seq(64, i => '0'), seq(64, i => '1');
    k := Kernel(s => if s == text then zeros else ones, j => if j == StableForm(f) then Some(text) else None,
                t => Some(StableForm(f)));
    var contents := Contents(k, [f]);
    assert contents == [zeros] && contents[..0] == [];
    var link := GENESIS + zeros;
    assert |link| == 71 && |text| == 4;
    assert zeros[0] != ones[0];
    forall x, y | x in HashedStrings(k, [f]) && y in HashedStrings(k, [f])
      ensures !Collide(k, x, y)
    {
      assert x in {link, text} && y in {link, text} by {
        assert FoldInputs(k, contents) == {link} && PrintedFacts(k, [f]) <= {text};
      }
      assert k.blake3(text) == zeros && k.blake3(link) == ones;
    }
  }

  /** The converse needs no hypothesis: the same history always has the same chain hash. */
  lemma {:induction false} SameHistorySameHash(k: Kernel, a: seq<Fact>, b: seq<Fact>)
    requires SameHistory(a, b)
    ensures ChainHash(k, a) == ChainHash(k, b)
  {
    if a != [] {
      SameHistorySameHash(k, a[..|a| - 1], b[..|b| - 1]);
    }
  }
}
