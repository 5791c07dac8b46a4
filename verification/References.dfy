/** What a fact refers to, read off its stable form. */
module References {
  import opened Base
  import opened Json
  import opened Facts
  import opened StableJson
  import opened HashChain
  import opened Auditor
  import opened AuditRuns
  import Renumber

  /** The id that a stable form gives under `key`. */
  predicate Gives(f: Fact, key: string, id: FactId) {
    StableForm(f).JObject? && key in StableForm(f).fields && StableForm(f).fields[key] == JNumber(Whole(id))
  }

  predicate Mentions(f: Fact, key: string) {
    StableForm(f).JObject? && key in StableForm(f).fields
  }

  /** What the auditor follows: the cause of a transition or a request, and the request of a response; the causes
      that traces and violations give are not followed. */
  predicate Follows(f: Fact, c: FactId) {
    || (f.TypeName() in {"StateTransition", "IoRequest"} && Gives(f, "cause", c))
    || (f.TypeName() == "IoResponse" && Gives(f, "request_id", c))
  }

  lemma CauseIsGiven(f: Fact, c: FactId)
    ensures ExtractCause(f) == Some(c) <==> Follows(f, c)
  {
  }

  /** The cause of an audited entry is what its fact's stable form gives to follow. */
  lemma AuditedCauseIsGiven(k: Kernel, facts: seq<Fact>, i: nat, c: FactId)
    requires i < |facts| && i < |AuditAll(k, EMPTY, facts).entries|
    ensures AuditAll(k, EMPTY, facts).entries[i].cause == Some(c) <==> Follows(facts[i], c)
  {
    EntriesDescribe(k, facts, i);
    CauseIsGiven(facts[i], c);
  }

  /** Renumbering takes for a reference exactly what a stable form gives as a cause or as a request. */
  lemma ReferenceIsGiven(f: Fact, c: FactId)
    ensures Renumber.Ref(f) == Some(c) <==> Gives(f, "cause", c) || Gives(f, "request_id", c)
    ensures Renumber.Ref(f).Some? <==> Mentions(f, "cause") || Mentions(f, "request_id")
  {
  }

  /** Renumbering changes in a stable form only the id and the reference. */
  lemma RenumberKeepsForm(facts: seq<Fact>, i: nat, key: string)
    requires i < |facts| < U64_SIZE
    ensures var before, after := StableForm(facts[i]), StableForm(Renumber.Renumbered(facts)[i]);
            && before.JObject? && after.JObject? && before.fields.Keys == after.fields.Keys
            && Gives(Renumber.Renumbered(facts)[i], "id", i + 1)
            && (key in before.fields && key !in {"id", "cause", "request_id"} ==> after.fields[key] == before.fields[key])
  {
  }
}
