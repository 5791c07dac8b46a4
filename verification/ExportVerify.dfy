/** The independent verifier's report-style checks of export documents and WAL lines
    (evid-verify-core/src/verify.rs): the first red entry stops the scan. */
module ExportVerify {
  import opened Base
  import opened Json
  import opened Facts
  import opened StableJson
  import opened HashChain

  datatype ExportEntry = ExportEntry(
    contentHash: string, fact: Fact, factId: u64, factType: string, factJsonStable: string, prevHash: string)

  datatype ExportDoc = ExportDoc(version: string, entryCount: u64, lastHash: string, entries: seq<ExportEntry>)

  datatype ExportStep = Link | Content | StableText

  datatype EntryVerdict = EntryVerdict(index: nat, ok: bool, reject: Option<ExportStep>)

  datatype ExportReport = ExportReport(
    verdicts: seq<EntryVerdict>, stoppedAt: Option<nat>, tailHash: string, lastHashMatches: bool)
  {
    predicate AllOk() {
      stoppedAt.None? && lastHashMatches
    }
  }

  // ---------------------------------------------------------------- declarative reading

  function FactsOf(entries: seq<ExportEntry>): seq<Fact> {
    seq(|entries|, i requires 0 <= i < |entries| => entries[i].fact)
  }

  predicate ContentOk(k: Kernel, e: ExportEntry) {
    FactHash(k, e.fact) == Ok(e.contentHash)
  }

  predicate StableOk(k: Kernel, e: ExportEntry) {
    && k.parse(e.factJsonStable) == Some(StableForm(e.fact))
    && e.fact.id == e.factId
    && e.fact.TypeName() == e.factType
  }

  /** The step at which an entry is rejected when the folded head so far is `prev`. */
  function RejectedAt(k: Kernel, prev: string, e: ExportEntry): Option<ExportStep> {
    if e.prevHash != prev then Some(Link)
    else if !ContentOk(k, e) then Some(Content)
    else if !StableOk(k, e) then Some(StableText)
    else None
  }

  /** The head folded from the first `n` declared content hashes. */
  ghost function HeadAt(k: Kernel, entries: seq<ExportEntry>, n: nat): string
    requires n <= |entries|
  {
    if n == 0 then GENESIS else ChainStep(k, HeadAt(k, entries, n - 1), entries[n - 1].contentHash)
  }

  ghost predicate GreenAt(k: Kernel, entries: seq<ExportEntry>, i: nat)
    requires i < |entries|
  {
    RejectedAt(k, HeadAt(k, entries, i), entries[i]).None?
  }

  ghost predicate GreenUpTo(k: Kernel, entries: seq<ExportEntry>, n: nat)
    requires n <= |entries|
  {
    forall i | 0 <= i < n :: GreenAt(k, entries, i)
  }

  function Greens(n: nat): seq<EntryVerdict> {
    seq(n, i requires 0 <= i < n => EntryVerdict(i, true, None))
  }

  /** What the report says when the first `n` entries are green and entry `n`, if there is one, is red. */
  ghost predicate Reports(k: Kernel, doc: ExportDoc, r: ExportReport, n: nat) {
    && n <= |doc.entries|
    && GreenUpTo(k, doc.entries, n)
    && r.tailHash == HeadAt(k, doc.entries, n)
    && r.lastHashMatches == (r.tailHash == doc.lastHash)
    && (if n == |doc.entries| then
          r.stoppedAt.None? && r.verdicts == Greens(n)
        else
          var step := RejectedAt(k, r.tailHash, doc.entries[n]);
          r.stoppedAt == Some(n) && step.Some? && r.verdicts == Greens(n) + [EntryVerdict(n, false, step)])
  }

  /** The document an honest exporter of its facts would have written, said through the facts alone. */
  ghost predicate Genuine(k: Kernel, doc: ExportDoc) {
    && (forall i | 0 <= i < |doc.entries| ::
          && ChainHash(k, FactsOf(doc.entries)[..i]) == Ok(doc.entries[i].prevHash)
          && ContentOk(k, doc.entries[i])
          && StableOk(k, doc.entries[i]))
    && ChainHash(k, FactsOf(doc.entries)) == Ok(doc.lastHash)
  }

  // ---------------------------------------------------------------- the scan as written

  function Finish(verdicts: seq<EntryVerdict>, stoppedAt: Option<nat>, tail: string, doc: ExportDoc): ExportReport {
    ExportReport(verdicts, stoppedAt, tail, tail == doc.lastHash)
  }

  /** The checks on one entry, in the order of the scan. */
  method CheckEntry(k: Kernel, prev: string, e: ExportEntry) returns (step: Option<ExportStep>)
    ensures step == RejectedAt(k, prev, e)
  {
    if e.prevHash != prev {
      return Some(Link);
    }
    var recomputed := FactHash(k, e.fact);
    if recomputed.Err? || recomputed.value != e.contentHash {
      return Some(Content);
    }
    var original := k.parse(e.factJsonStable);
    if original != Some(StableForm(e.fact)) {
      return Some(StableText);
    }
    if e.fact.id != e.factId || e.fact.TypeName() != e.factType {
      return Some(StableText);
    }
    return None;
  }

  method VerifyExport(k: Kernel, doc: ExportDoc) returns (r: ExportReport)
    ensures Reports(k, doc, r, if r.stoppedAt.Some? then r.stoppedAt.value else |doc.entries|)
    ensures r.AllOk() <==> Genuine(k, doc)
  {
    var prev := GENESIS;
    var verdicts: seq<EntryVerdict> := [];
    for index := 0 to |doc.entries|
      invariant prev == HeadAt(k, doc.entries, index) && verdicts == Greens(index)
      invariant GreenUpTo(k, doc.entries, index)
    {
      var e := doc.entries[index];
      var step := CheckEntry(k, prev, e);
      if step.Some? {
        RedReport(k, doc, index);
        return Finish(verdicts + [EntryVerdict(index, false, step)], Some(index), prev, doc);
      }
      GreensSnoc(index);
      prev := ChainStep(k, prev, e.contentHash);
      verdicts := verdicts + [EntryVerdict(index, true, None)];
    }
    GreenReport(k, doc);
    return Finish(verdicts, None, prev, doc);
  }

  lemma GreensSnoc(n: nat)
    ensures Greens(n) + [EntryVerdict(n, true, None)] == Greens(n + 1)
  {
  }

  lemma RedReport(k: Kernel, doc: ExportDoc, n: nat)
    requires n < |doc.entries| && GreenUpTo(k, doc.entries, n)
    requires RejectedAt(k, HeadAt(k, doc.entries, n), doc.entries[n]).Some?
    ensures var head := HeadAt(k, doc.entries, n);
            var step := RejectedAt(k, head, doc.entries[n]);
            var r := Finish(Greens(n) + [EntryVerdict(n, false, step)], Some(n), head, doc);
            Reports(k, doc, r, n) && !r.AllOk() && !Genuine(k, doc)
  {
    RedIsNotGenuine(k, doc, n);
  }

  lemma GreenReport(k: Kernel, doc: ExportDoc)
    requires GreenUpTo(k, doc.entries, |doc.entries|)
    ensures var r := Finish(Greens(|doc.entries|), None, HeadAt(k, doc.entries, |doc.entries|), doc);
            Reports(k, doc, r, |doc.entries|) && (r.AllOk() <==> Genuine(k, doc))
  {
    GreenIsGenuine(k, doc);
  }

  // ---------------------------------------------------------------- green means genuine

  /** While the contents declared so far are right, the declared fold is the fact chain. */
  lemma {:induction false} DeclaredIsChain(k: Kernel, entries: seq<ExportEntry>, n: nat)
    requires n <= |entries| && forall i | 0 <= i < n :: ContentOk(k, entries[i])
    ensures ChainHash(k, FactsOf(entries)[..n]) == Ok(HeadAt(k, entries, n))
  {
    if n > 0 {
      DeclaredIsChain(k, entries, n - 1);
      assert FactsOf(entries)[..n][..n - 1] == FactsOf(entries)[..n - 1];
      assert ContentOk(k, entries[n - 1]);
    }
  }

  lemma {:induction false} GreenIsGenuine(k: Kernel, doc: ExportDoc)
    requires GreenUpTo(k, doc.entries, |doc.entries|)
    ensures Genuine(k, doc) <==> HeadAt(k, doc.entries, |doc.entries|) == doc.lastHash
  {
    var es := doc.entries;
    forall i | 0 <= i < |es|
      ensures ChainHash(k, FactsOf(es)[..i]) == Ok(es[i].prevHash) && ContentOk(k, es[i]) && StableOk(k, es[i])
    {
      assert GreenAt(k, es, i);
      forall j | 0 <= j < i
        ensures ContentOk(k, es[j])
      {
        assert GreenAt(k, es, j);
      }
      DeclaredIsChain(k, es, i);
    }
    DeclaredIsChain(k, es, |es|);
    assert FactsOf(es)[..|es|] == FactsOf(es);
  }

  /** The step that a report names, said through the facts: the link, when the stored previous hash is not the
      chain hash of the facts before; else the content, when the stored hash is not the fact's; else the
      stable text, which is then not the fact's form or not its id and type. */
  lemma ReportTells(k: Kernel, doc: ExportDoc, r: ExportReport, n: nat)
    requires Reports(k, doc, r, n) && n < |doc.entries|
    ensures var (e, before, step) := (doc.entries[n], ChainHash(k, FactsOf(doc.entries)[..n]), r.verdicts[n].reject);
            var (linked, hashed) := (before == Ok(e.prevHash), FactHash(k, e.fact) == Ok(e.contentHash));
            && (step == Some(Link) <==> !linked) && (step == Some(Content) <==> linked && !hashed)
            && (step == Some(StableText) <==>
                  linked && hashed && !(k.parse(e.factJsonStable) == Some(StableForm(e.fact))
                                        && e.factId == e.fact.id && e.factType == e.fact.TypeName()))
            && step.Some? && r.stoppedAt == Some(n) && before == Ok(r.tailHash)
  {
    forall i | 0 <= i < n
      ensures ContentOk(k, doc.entries[i])
    {
      assert GreenAt(k, doc.entries, i);
    }
    DeclaredIsChain(k, doc.entries, n);
  }

  lemma RedIsNotGenuine(k: Kernel, doc: ExportDoc, n: nat)
    requires n < |doc.entries| && RejectedAt(k, HeadAt(k, doc.entries, n), doc.entries[n]).Some?
    ensures !Genuine(k, doc)
  {
    if forall i | 0 <= i < n :: ContentOk(k, doc.entries[i]) {
      DeclaredIsChain(k, doc.entries, n);
    }
  }

  lemma GenuineIsHashable(k: Kernel, doc: ExportDoc)
    requires Genuine(k, doc)
    ensures Hashable(k, FactsOf(doc.entries))
  {
    ChainHashIsFold(k, FactsOf(doc.entries));
  }

  /** The stable form fixes a fact's id and type name. */
  lemma StableNames(f: Fact, g: Fact)
    requires StableForm(f) == StableForm(g)
    ensures f.id == g.id && f.TypeName() == g.TypeName()
  {
    SameStableIffSameCanonical(f, g);
    assert CanonicalFact(f).id == f.id && CanonicalFact(g).id == g.id;
    assert CanonicalFact(f).TypeName() == f.TypeName() && CanonicalFact(g).TypeName() == g.TypeName();
  }

  /** Two entries that say the same thing; the stable texts may differ in layout only. */
  ghost predicate SameEntry(k: Kernel, x: ExportEntry, y: ExportEntry) {
    && CanonicalFact(x.fact) == CanonicalFact(y.fact)
    && x.contentHash == y.contentHash && x.prevHash == y.prevHash
    && x.factId == y.factId && x.factType == y.factType
    && k.parse(x.factJsonStable) == k.parse(y.factJsonStable)
  }

  lemma SameFactSameEntry(k: Kernel, x: ExportEntry, y: ExportEntry)
    requires StableForm(x.fact) == StableForm(y.fact) && x.prevHash == y.prevHash
    requires ContentOk(k, x) && ContentOk(k, y) && StableOk(k, x) && StableOk(k, y)
    ensures SameEntry(k, x, y)
  {
    StableNames(x.fact, y.fact);
    SameStableIffSameCanonical(x.fact, y.fact);
  }

  /** Two accepted exports with the same last hash are the same export, entry by entry. */
  lemma {:induction false} SameTailSameExport(k: Kernel, a: ExportDoc, b: ExportDoc)
    requires WellBehaved(k) && Genuine(k, a) && Genuine(k, b) && a.lastHash == b.lastHash
    requires NoCollision(k, HashedStrings(k, FactsOf(a.entries)) + HashedStrings(k, FactsOf(b.entries)))
    ensures |a.entries| == |b.entries|
    ensures forall i | 0 <= i < |a.entries| :: SameEntry(k, a.entries[i], b.entries[i])
  {
    var fa, fb := FactsOf(a.entries), FactsOf(b.entries);
    GenuineIsHashable(k, a);
    GenuineIsHashable(k, b);
    ChainPinsHistory(k, fa, fb);
    forall i | 0 <= i < |a.entries|
      ensures SameEntry(k, a.entries[i], b.entries[i])
    {
      EntriesAgree(k, a, b, i);
    }
  }

  lemma EntriesAgree(k: Kernel, a: ExportDoc, b: ExportDoc, i: nat)
    requires Genuine(k, a) && Genuine(k, b) && SameHistory(FactsOf(a.entries), FactsOf(b.entries)) && i < |a.entries|
    ensures |a.entries| == |b.entries| && SameEntry(k, a.entries[i], b.entries[i])
  {
    var fa, fb := FactsOf(a.entries), FactsOf(b.entries);
    assert StableForm(fa[i]) == StableForm(fb[i]);
    SamePrefix(fa, fb, i);
    SameHistorySameHash(k, fa[..i], fb[..i]);
    SameFactSameEntry(k, a.entries[i], b.entries[i]);
  }

  lemma SamePrefix(a: seq<Fact>, b: seq<Fact>, i: nat)
    requires SameHistory(a, b) && i <= |a|
    ensures SameHistory(a[..i], b[..i])
  {
  }

  // ---------------------------------------------------------------- WAL lines

  datatype WalLine = WalLine(contentHash: string, chainHash: string, prevHash: string, fact: Fact)

  /** Steps are numbered as in the source: 1 link, 2 content hash, 3 chain fold. */
  datatype WalVerdict = WalVerdict(index: nat, ok: bool, rejectStep: Option<nat>)

  datatype WalReport = WalReport(verdicts: seq<WalVerdict>, stoppedAt: Option<nat>, tailHash: string) {
    predicate AllOk() {
      stoppedAt.None?
    }
  }

  /** The chain head after the first `n` lines, as the lines declare it. */
  function WalHead(lines: seq<WalLine>, n: nat): string
    requires n <= |lines|
  {
    if n == 0 then GENESIS else lines[n - 1].chainHash
  }

  /** Line `i` extends the head before it by its own fact. */
  predicate WalLineOk(k: Kernel, lines: seq<WalLine>, i: nat)
    requires i < |lines|
  {
    && lines[i].prevHash == WalHead(lines, i)
    && FactHash(k, lines[i].fact) == Ok(lines[i].contentHash)
    && lines[i].chainHash == ChainStep(k, lines[i].prevHash, lines[i].contentHash)
  }

  function WalRejectStep(k: Kernel, lines: seq<WalLine>, i: nat): nat
    requires i < |lines|
  {
    if lines[i].prevHash != WalHead(lines, i) then 1
    else if FactHash(k, lines[i].fact) != Ok(lines[i].contentHash) then 2
    else 3
  }

  method VerifyWalLines(k: Kernel, lines: seq<WalLine>) returns (r: WalReport)
    ensures r.stoppedAt.None? ==> forall i | 0 <= i < |lines| :: WalLineOk(k, lines, i)
    ensures r.stoppedAt.Some? ==>
              && r.stoppedAt.value < |lines| && !WalLineOk(k, lines, r.stoppedAt.value)
              && forall i | 0 <= i < r.stoppedAt.value :: WalLineOk(k, lines, i)
    ensures var n := if r.stoppedAt.Some? then r.stoppedAt.value else |lines|;
            && n <= |lines| && r.tailHash == WalHead(lines, n)
            && (forall i | 0 <= i < n :: i < |r.verdicts| && r.verdicts[i] == WalVerdict(i, true, None))
            && (n == |lines| ==> |r.verdicts| == n)
            && (n < |lines| ==>
                  |r.verdicts| == n + 1 && r.verdicts[n] == WalVerdict(n, false, Some(WalRejectStep(k, lines, n))))
  {
    var prev := GENESIS;
    var verdicts: seq<WalVerdict> := [];
    for index := 0 to |lines|
      invariant prev == WalHead(lines, index) && |verdicts| == index
      invariant forall i | 0 <= i < index :: verdicts[i] == WalVerdict(i, true, None)
      invariant forall i | 0 <= i < index :: WalLineOk(k, lines, i)
    {
      var line := lines[index];
      if line.prevHash != prev {
        return WalReport(verdicts + [WalVerdict(index, false, Some(1))], Some(index), prev);
      }
      var h := FactHash(k, line.fact);
      if h.Err? || h.value != line.contentHash {
        return WalReport(verdicts + [WalVerdict(index, false, Some(2))], Some(index), prev);
      }
      if ChainStep(k, line.prevHash, line.contentHash) != line.chainHash {
        return WalReport(verdicts + [WalVerdict(index, false, Some(3))], Some(index), prev);
      }
      prev := line.chainHash;
      verdicts := verdicts + [WalVerdict(index, true, None)];
    }
    return WalReport(verdicts, None, prev);
  }
}
