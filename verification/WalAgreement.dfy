/** The two readers of the write-ahead log: the auditor's loader and the independent line verifier. */
module WalAgreement {
  import opened Base
  import opened Facts
  import opened HashChain
  import opened ExportVerify
  import opened Auditor
  import opened AuditRuns

  /** The records of lines that carry all three hash fields. */
  function RecordsOf(lines: seq<WalLine>): seq<WalRecord> {
    seq(|lines|, i requires 0 <= i < |lines| =>
      WalRecord(lines[i].fact, Some(lines[i].contentHash), Some(lines[i].prevHash), Some(lines[i].chainHash)))
  }

  function FactsOfLines(lines: seq<WalLine>): seq<Fact> {
    seq(|lines|, i requires 0 <= i < |lines| => lines[i].fact)
  }

  predicate LinesOk(k: Kernel, lines: seq<WalLine>, n: nat)
    requires n <= |lines|
  {
    forall i | 0 <= i < n :: WalLineOk(k, lines, i)
  }

  // ---------------------------------------------------------------- the same verdict

  /** On one record, on top of one head, the loader and the line verifier agree although the loader checks
      the content first and the verifier the link. */
  lemma RecordAgrees(k: Kernel, lines: seq<WalLine>, i: nat)
    requires i < |lines|
    ensures RecordFault(k, WalHead(lines, i), RecordsOf(lines)[i], i).None? <==> WalLineOk(k, lines, i)
  {
  }

  lemma {:induction false} HeadsAgree(k: Kernel, lines: seq<WalLine>, n: nat)
    requires n <= |lines| && LinesOk(k, lines, n)
    ensures LoadAll(k, RecordsOf(lines), n).head == WalHead(lines, n)
  {
    if n > 0 {
      HeadsAgree(k, lines, n - 1);
      assert WalLineOk(k, lines, n - 1);
    }
  }

  lemma {:induction false} PrefixesAgree(k: Kernel, lines: seq<WalLine>, n: nat)
    requires n <= |lines|
    ensures LinesOk(k, lines, n) <==> FaultFree(k, RecordsOf(lines), n)
  {
    if n > 0 {
      PrefixesAgree(k, lines, n - 1);
      LinesOkSnoc(k, lines, n - 1);
      FaultFreeSnoc(k, RecordsOf(lines), n - 1);
      if LinesOk(k, lines, n - 1) {
        FaultAgrees(k, lines, n - 1);
      }
    }
  }

  lemma LinesOkSnoc(k: Kernel, lines: seq<WalLine>, n: nat)
    requires n < |lines|
    ensures LinesOk(k, lines, n + 1) <==> LinesOk(k, lines, n) && WalLineOk(k, lines, n)
  {
    if LinesOk(k, lines, n + 1) {
      assert forall i | 0 <= i < n :: WalLineOk(k, lines, i);
    }
  }

  lemma FaultFreeSnoc(k: Kernel, records: seq<WalRecord>, n: nat)
    requires n < |records|
    ensures FaultFree(k, records, n + 1) <==> FaultFree(k, records, n) && FaultAt(k, records, n).None?
  {
    if FaultFree(k, records, n + 1) {
      assert forall i | 0 <= i < n :: FaultAt(k, records, i).None?;
    }
  }

  lemma FaultAgrees(k: Kernel, lines: seq<WalLine>, i: nat)
    requires i < |lines| && LinesOk(k, lines, i)
    ensures FaultAt(k, RecordsOf(lines), i).None? <==> WalLineOk(k, lines, i)
  {
    HeadsAgree(k, lines, i);
    RecordAgrees(k, lines, i);
  }

  /** Where the line verifier stops, the loader stops too, and nowhere else. */
  lemma StopsAgree(k: Kernel, lines: seq<WalLine>, i: nat)
    requires i < |lines|
    ensures LinesOk(k, lines, i) && !WalLineOk(k, lines, i)
       <==> exists e :: StopsAt(k, RecordsOf(lines), i, e)
  {
    PrefixesAgree(k, lines, i);
    if LinesOk(k, lines, i) {
      FaultAgrees(k, lines, i);
      var fault := FaultAt(k, RecordsOf(lines), i);
      if fault.Some? {
        assert StopsAt(k, RecordsOf(lines), i, fault.value);
      }
    }
  }

  lemma RedLine(k: Kernel, lines: seq<WalLine>, i: nat)
    requires i < |lines| && !WalLineOk(k, lines, i)
    ensures !LinesOk(k, lines, |lines|)
  {
  }

  lemma StopIsUnique(k: Kernel, records: seq<WalRecord>, i: nat, j: nat, e: LoadError, f: LoadError)
    requires StopsAt(k, records, i, e) && StopsAt(k, records, j, f)
    ensures i == j
  {
  }

  /** Both readers on the same lines: the loader succeeds exactly when the report is all green, and
      otherwise they stop at the same line. */
  method ReadTwice(auditor: Auditor, lines: seq<WalLine>) returns (loaded: Result<(), LoadError>, report: WalReport)
    modifies auditor
    ensures loaded.Ok? <==> report.AllOk()
    ensures loaded.Err? ==> StopsAt(auditor.crypto.kernel, RecordsOf(lines), report.stoppedAt.value, loaded.error)
  {
    var k := auditor.crypto.kernel;
    report := VerifyWalLines(k, lines);
    if report.stoppedAt.Some? {
      RedLine(k, lines, report.stoppedAt.value);
    }
    loaded := auditor.LoadFromTier1Wal(Ok(RecordsOf(lines)));
    PrefixesAgree(k, lines, |lines|);
    if loaded.Err? {
      ghost var i: nat :| FailedLoad(k, RecordsOf(lines), i, loaded.error, auditor.CoreView(), old(auditor.clock));
      assert FaultAt(k, RecordsOf(lines), i).Some?;
      assert report.stoppedAt.Some?;
      StopsAgree(k, lines, report.stoppedAt.value);
      ghost var e :| StopsAt(k, RecordsOf(lines), report.stoppedAt.value, e);
      StopIsUnique(k, RecordsOf(lines), i, report.stoppedAt.value, loaded.error, e);
    }
  }

  // ---------------------------------------------------------------- what a successful load rebuilds

  /** The loader knows eight type names; `TransitionTrace` and `Violation` are not among them. */
  function Retyped(e: AuditEntry): AuditEntry {
    e.(factType := TableName(e.factType))
  }

  function RetypedAll(es: seq<AuditEntry>): seq<AuditEntry> {
    seq(|es|, i requires 0 <= i < |es| => Retyped(es[i]))
  }

  /** What a load built is what an audit built, but for unknown type names. */
  predicate SameButTypes(loaded: Loaded, audited: Core) {
    && loaded.entries == RetypedAll(audited.entries)
    && loaded.index == audited.index && loaded.head == audited.lastHash
  }

  lemma LoadOneIsAuditOne(k: Kernel, loaded: Loaded, audited: Core, r: WalRecord, i: nat)
    requires SameButTypes(loaded, audited) && |audited.entries| == audited.clock == i
    requires r.prevHash == Some(loaded.head) && r.contentHash.Some? && FactHash(k, r.fact) == Ok(r.contentHash.value)
    ensures SameButTypes(LoadOne(k, loaded, r, i), AuditOne(k, audited, r.fact))
  {
    var longer := AuditOne(k, audited, r.fact).entries;
    RetypedSnoc(audited.entries, longer[i]);
    assert RecordEntry(k, r, i) == Retyped(longer[i]);
  }

  /** A load of accepted lines rebuilds what auditing their facts builds, but for unknown type names. */
  lemma {:induction false} LoadIsAudit(k: Kernel, lines: seq<WalLine>, n: nat)
    requires n <= |lines| && LinesOk(k, lines, n)
    ensures SameButTypes(LoadAll(k, RecordsOf(lines), n), AuditAll(k, EMPTY, FactsOfLines(lines)[..n]))
  {
    if n > 0 {
      LinesOkSnoc(k, lines, n - 1);
      LoadIsAudit(k, lines, n - 1);
      HeadsAgree(k, lines, n - 1);
      var before := FactsOfLines(lines)[..n - 1];
      assert FactsOfLines(lines)[..n][..n - 1] == before;
      AuditAllLengths(k, EMPTY, before);
      LoadOneIsAuditOne(k, LoadAll(k, RecordsOf(lines), n - 1), AuditAll(k, EMPTY, before), RecordsOf(lines)[n - 1], n - 1);
    }
  }

  lemma AcceptedIsHashable(k: Kernel, lines: seq<WalLine>, n: nat)
    requires n <= |lines| && LinesOk(k, lines, n)
    ensures Hashable(k, FactsOfLines(lines)[..n])
  {
    forall i | 0 <= i < n
      ensures FactHash(k, FactsOfLines(lines)[..n][i]).Ok?
    {
      assert WalLineOk(k, lines, i);
    }
  }

  lemma RetypedSnoc(es: seq<AuditEntry>, e: AuditEntry)
    ensures RetypedAll(es + [e]) == RetypedAll(es) + [Retyped(e)]
  {
  }

  lemma RetypedKeepsLinks(k: Kernel, es: seq<AuditEntry>)
    requires LinksOk(k, es)
    ensures LinksOk(k, RetypedAll(es))
  {
    forall i | 0 <= i < |es|
      ensures LinkOk(k, RetypedAll(es), i)
    {
      assert LinkOk(k, es, i);
    }
  }

  /** After a successful load `verify` accepts, `verify_deep` accepts the recorded facts, and the chain
      head is the fold recomputed from those facts. */
  lemma LoadedStateIsSound(k: Kernel, lines: seq<WalLine>, clock: nat)
    requires FaultFree(k, RecordsOf(lines), |lines|)
    ensures var s := LoadedCore(k, RecordsOf(lines), |lines|, clock);
            && LinksOk(k, s.entries)
            && DeepOk(k, s.entries, FactsOfLines(lines))
            && ChainHash(k, FactsOfLines(lines)) == Ok(s.lastHash)
  {
    var facts := FactsOfLines(lines);
    PrefixesAgree(k, lines, |lines|);
    LoadIsAudit(k, lines, |lines|);
    AcceptedIsHashable(k, lines, |lines|);
    assert facts[..|lines|] == facts;
    var audited := AuditAll(k, EMPTY, facts);
    AuditedLinksOk(k, facts);
    RetypedKeepsLinks(k, audited.entries);
    AuditedDeepOk(k, facts);
    ChainHashIsFold(k, facts);
    RunningHeadIsChainHash(k, facts);
    forall i | 0 <= i < |facts|
      ensures FactHash(k, facts[i]) == Ok(RetypedAll(audited.entries)[i].contentHash)
    {
      assert FactHash(k, facts[i]) == Ok(audited.entries[i].contentHash);
    }
  }

  /** Loading and auditing give the very same entries exactly when every type name is in the table. */
  lemma {:induction false} SameEntriesIffKnownTypes(k: Kernel, lines: seq<WalLine>)
    requires LinesOk(k, lines, |lines|)
    ensures LoadAll(k, RecordsOf(lines), |lines|).entries == AuditAll(k, EMPTY, FactsOfLines(lines)).entries
       <==> forall i | 0 <= i < |lines| :: !lines[i].fact.TransitionTrace? && !lines[i].fact.Violation?
  {
    var facts := FactsOfLines(lines);
    LoadIsAudit(k, lines, |lines|);
    assert facts[..|lines|] == facts;
    var audited := AuditAll(k, EMPTY, facts).entries;
    AuditAllLengths(k, EMPTY, facts);
    forall i | 0 <= i < |lines|
      ensures RetypedAll(audited)[i] == audited[i] <==> !lines[i].fact.TransitionTrace? && !lines[i].fact.Violation?
    {
      EntriesDescribe(k, facts, i);
      TableKnows(lines[i].fact);
    }
    if forall i | 0 <= i < |lines| :: !lines[i].fact.TransitionTrace? && !lines[i].fact.Violation? {
      assert forall i | 0 <= i < |lines| :: RetypedAll(audited)[i] == audited[i];
    }
  }

  lemma TableKnows(f: Fact)
    ensures TableName(f.TypeName()) == f.TypeName() <==> !f.TransitionTrace? && !f.Violation?
  {
    assert FACT_TYPE_TABLE[0] == "Command" && FACT_TYPE_TABLE[1] == "PayloadUpdate"
        && FACT_TYPE_TABLE[2] == "StateTransition" && FACT_TYPE_TABLE[3] == "IoRequest"
        && FACT_TYPE_TABLE[4] == "IoResponse" && FACT_TYPE_TABLE[5] == "Stable" && FACT_TYPE_TABLE[6] == "Error";
  }

  // ---------------------------------------------------------------- auditing on after a load

  /** Auditing on from accepted entries keeps the links exactly when the running head is the entries' head. */
  lemma {:induction false} AuditOnKeepsLinks(k: Kernel, s: Core, facts: seq<Fact>)
    requires LinksOk(k, s.entries) && facts != []
    ensures LinksOk(k, AuditAll(k, s, facts).entries) <==> HeadAfter(k, s.entries, |s.entries|) == s.lastHash
    ensures var t := AuditAll(k, s, facts); HeadAfter(k, t.entries, |t.entries|) == t.lastHash
    decreases |facts|
  {
    var front, last := facts[..|facts| - 1], facts[|facts| - 1];
    if front == [] {
      LinksSnoc(k, s, last);
    } else {
      AuditOnKeepsLinks(k, s, front);
      LinksSnoc(k, AuditAll(k, s, front), last);
    }
  }

  lemma LinksSnoc(k: Kernel, s: Core, f: Fact)
    ensures var t := AuditOne(k, s, f);
            && (LinksOk(k, t.entries) <==> LinksOk(k, s.entries) && HeadAfter(k, s.entries, |s.entries|) == s.lastHash)
            && HeadAfter(k, t.entries, |t.entries|) == t.lastHash
  {
    var t := AuditOne(k, s, f);
    forall i | 0 <= i < |s.entries|
      ensures LinkOk(k, t.entries, i) <==> LinkOk(k, s.entries, i)
    {
      assert i > 0 ==> t.entries[i - 1] == s.entries[i - 1];
    }
    assert LinkOk(k, t.entries, |s.entries|) <==> HeadAfter(k, s.entries, |s.entries|) == s.lastHash;
    if LinksOk(k, t.entries) {
      assert forall i | 0 <= i < |s.entries| :: LinkOk(k, t.entries, i);
    }
  }

  /** A failed load leaves the accepted entries with the head back at genesis: whatever is audited next
      breaks the chain, unless the very first record was the bad one. */
  lemma AuditAfterFailedLoad(k: Kernel, lines: seq<WalLine>, i: nat, error: LoadError, clock: nat, facts: seq<Fact>)
    requires Digests(k) && StopsAt(k, RecordsOf(lines), i, error) && facts != []
    ensures LinksOk(k, LoadedCore(k, RecordsOf(lines), i, clock).entries)
    ensures LinksOk(k, AuditAll(k, LoadedCore(k, RecordsOf(lines), i, clock), facts).entries) <==> i == 0
  {
    var s := LoadedCore(k, RecordsOf(lines), i, clock);
    PrefixesAgree(k, lines, i);
    LoadIsAudit(k, lines, i);
    AuditedLinksOk(k, FactsOfLines(lines)[..i]);
    RetypedKeepsLinks(k, AuditAll(k, EMPTY, FactsOfLines(lines)[..i]).entries);
    AuditAllLengths(k, EMPTY, FactsOfLines(lines)[..i]);
    AuditOnKeepsLinks(k, s, facts);
    if i > 0 {
      assert |HeadAfter(k, s.entries, |s.entries|)| == 64;
    }
  }

  /** Such a load is reached by a log that repeats its first line: it stops at the second, and auditing on
      breaks the chain. */
  lemma RepeatedLineBreaksTheChain(k: Kernel, f: Fact, clock: nat, facts: seq<Fact>) returns (lines: seq<WalLine>, error: LoadError)
    requires Digests(k) && FactHash(k, f).Ok? && facts != []
    ensures StopsAt(k, RecordsOf(lines), 1, error)
    ensures !LinksOk(k, AuditAll(k, LoadedCore(k, RecordsOf(lines), 1, clock), facts).entries)
  {
    var content := FactHash(k, f).value;
    var line := WalLine(content, ChainStep(k, GENESIS, content), GENESIS, f);
    lines := [line, line];
    assert WalHead(lines, 1) == line.chainHash && |line.chainHash| == 64;
    assert WalLineOk(k, lines, 0) && !WalLineOk(k, lines, 1);
    StopsAgree(k, lines, 1);
    error :| StopsAt(k, RecordsOf(lines), 1, error);
    AuditAfterFailedLoad(k, lines, 1, error, clock, facts);
  }
}
