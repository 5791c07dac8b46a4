/** What a load of write-ahead log records leaves behind, whichever hash fields the records carry, and why a
    reader of the log stops. */
module WalLoads {
  import opened Base
  import opened Facts
  import opened HashChain
  import opened ExportVerify
  import opened Auditor
  import opened AuditRuns
  import opened WalAgreement

  function FactsOfRecords(records: seq<WalRecord>): seq<Fact> {
    seq(|records|, i requires 0 <= i < |records| => records[i].fact)
  }

  // ---------------------------------------------------------------- the entries of a load

  /** The entries after `n` records. */
  function Entries(k: Kernel, records: seq<WalRecord>, n: nat): seq<AuditEntry>
    requires n <= |records|
  {
    LoadAll(k, records, n).entries
  }

  lemma LoadedSnoc(k: Kernel, records: seq<WalRecord>, n: nat, e: AuditEntry)
    requires n < |records| && e == RecordEntry(k, records[n], n)
    ensures Entries(k, records, n + 1) == Entries(k, records, n) + [e]
  {
  }

  lemma OneMoreEntry(k: Kernel, records: seq<WalRecord>, n: nat)
    requires n < |records|
    ensures Entries(k, records, n) <= Entries(k, records, n + 1)
    ensures |Entries(k, records, n + 1)| == |Entries(k, records, n)| + 1
  {
  }

  /** Lists that grow by one element at a time. */
  predicate OneByOne<T(==)>(states: seq<seq<T>>) {
    && states != [] && states[0] == []
    && forall n | 0 <= n < |states| - 1 :: states[n] <= states[n + 1] && |states[n + 1]| == |states[n]| + 1
  }

  lemma {:induction false} OneByOneAt<T>(states: seq<seq<T>>, n: nat, m: nat)
    requires OneByOne(states) && n <= m < |states|
    ensures |states[n]| == n && |states[m]| == m && states[n] <= states[m]
    decreases m
  {
    if n < m {
      OneByOneAt(states, n, m - 1);
    } else if n > 0 {
      OneByOneAt(states, n - 1, n - 1);
    }
  }

  function EntriesTable(k: Kernel, records: seq<WalRecord>): seq<seq<AuditEntry>> {
    seq(|records| + 1, n requires 0 <= n <= |records| => Entries(k, records, n))
  }

  lemma TableIsOneByOne(k: Kernel, records: seq<WalRecord>)
    ensures OneByOne(EntriesTable(k, records))
  {
    var states := EntriesTable(k, records);
    forall n | 0 <= n < |records|
      ensures states[n] <= states[n + 1] && |states[n + 1]| == |states[n]| + 1
    {
      OneMoreEntry(k, records, n);
    }
  }

  lemma LoadedLength(k: Kernel, records: seq<WalRecord>, n: nat)
    requires n <= |records|
    ensures |LoadAll(k, records, n).entries| == n
  {
    TableIsOneByOne(k, records);
    OneByOneAt(EntriesTable(k, records), n, n);
    assert EntriesTable(k, records)[n] == Entries(k, records, n);
  }

  /** There is one entry for each record, whatever comes after it. */
  lemma LoadedAt(k: Kernel, records: seq<WalRecord>, n: nat, i: nat)
    requires i < n <= |records|
    ensures |LoadAll(k, records, n).entries| == n
    ensures LoadAll(k, records, n).entries[i] == RecordEntry(k, records[i], i)
  {
    var states, e := EntriesTable(k, records), RecordEntry(k, records[i], i);
    TableIsOneByOne(k, records);
    OneByOneAt(states, i, i + 1);
    OneByOneAt(states, i + 1, n);
    LoadedSnoc(k, records, i, e);
    assert states[i + 1][i] == e && states[n] == Entries(k, records, n);
  }

  /** Every record behind the first stores the hash of the one before it. */
  predicate StoresLinks(records: seq<WalRecord>) {
    forall i | 1 <= i < |records| :: records[i].prevHash.Some?
  }

  /** An accepted record that stores a link stores the head before it; the first of the others says "genesis"
      in any case. */
  lemma LoadedPrev(k: Kernel, records: seq<WalRecord>, i: nat)
    requires i < |records| && FaultFree(k, records, |records|)
    ensures var prev := LoadAll(k, records, |records|).entries; i < |prev|
    ensures LoadAll(k, records, |records|).entries[i].prevHash
         == if records[i].prevHash.Some? then LoadAll(k, records, i).head else GENESIS
  {
    LoadedAt(k, records, |records|, i);
    assert FaultAt(k, records, i).None?;
  }

  lemma LinkWhereStored(k: Kernel, records: seq<WalRecord>, i: nat)
    requires i < |records| && FaultFree(k, records, |records|) && StoresLinks(records)
    ensures LoadedLengthOf(k, records) && LinkOk(k, LoadAll(k, records, |records|).entries, i)
  {
    LoadedLength(k, records, |records|);
    LoadedPrev(k, records, i);
    if i > 0 {
      LoadedPrev(k, records, i - 1);
      LoadedAt(k, records, |records|, i - 1);
    }
  }

  predicate LoadedLengthOf(k: Kernel, records: seq<WalRecord>) {
    |LoadAll(k, records, |records|).entries| == |records|
  }

  /** After a load without a fault `verify` accepts exactly when every record behind the first stores its link:
      an entry without one says "genesis", whatever came before it. */
  lemma LoadedLinksIffStored(k: Kernel, records: seq<WalRecord>)
    requires Digests(k) && FaultFree(k, records, |records|)
    ensures LinksOk(k, LoadAll(k, records, |records|).entries) <==> StoresLinks(records)
  {
    var entries := LoadAll(k, records, |records|).entries;
    LoadedLength(k, records, |records|);
    if StoresLinks(records) {
      forall i | 0 <= i < |entries|
        ensures LinkOk(k, entries, i)
      {
        LinkWhereStored(k, records, i);
      }
    } else {
      var i :| 1 <= i < |records| && records[i].prevHash.None?;
      LoadedPrev(k, records, i);
      assert |HeadAfter(k, entries, i)| == 64 && entries[i].prevHash == GENESIS;
      assert !LinkOk(k, entries, i);
    }
  }

  /** Its contents are those of the facts exactly when every fact can be hashed. */
  lemma LoadedContentsIffHashable(k: Kernel, records: seq<WalRecord>)
    requires FaultFree(k, records, |records|)
    ensures LoadedLengthOf(k, records)
    ensures ContentsOk(k, LoadAll(k, records, |records|).entries, FactsOfRecords(records))
       <==> Hashable(k, FactsOfRecords(records))
  {
    var entries, facts := LoadAll(k, records, |records|).entries, FactsOfRecords(records);
    LoadedLength(k, records, |records|);
    forall i | 0 <= i < |records|
      ensures FactHash(k, facts[i]) == Ok(entries[i].contentHash) <==> FactHash(k, facts[i]).Ok?
    {
      LoadedAt(k, records, |records|, i);
      assert FaultAt(k, records, i).None?;
    }
  }

  /** So `verify_deep` accepts the records' own facts exactly when the links are stored and every fact can be
      hashed. */
  lemma LoadedDeepIff(k: Kernel, records: seq<WalRecord>)
    requires Digests(k) && FaultFree(k, records, |records|)
    ensures DeepOk(k, LoadAll(k, records, |records|).entries, FactsOfRecords(records))
       <==> StoresLinks(records) && Hashable(k, FactsOfRecords(records))
  {
    LoadedLinksIffStored(k, records);
    LoadedContentsIffHashable(k, records);
  }

  lemma HeadStep(k: Kernel, records: seq<WalRecord>, n: nat)
    requires n < |records| && FaultAt(k, records, n).None? && FactHash(k, records[n].fact).Ok?
    ensures LoadAll(k, records, n + 1).head
         == ChainStep(k, LoadAll(k, records, n).head, FactHash(k, records[n].fact).value)
  {
  }

  lemma ChainHashStep(k: Kernel, front: seq<Fact>, f: Fact, head: string)
    requires ChainHash(k, front) == Ok(head) && FactHash(k, f).Ok?
    ensures ChainHash(k, front + [f]) == Ok(ChainStep(k, head, FactHash(k, f).value))
  {
    assert (front + [f])[..|front|] == front;
  }

  /** The head after an accepted prefix is the chain hash of its facts, whichever fields were stored. */
  lemma {:induction false} LoadedHeadIsChainHash(k: Kernel, records: seq<WalRecord>, n: nat)
    requires n <= |records| && FaultFree(k, records, n) && Hashable(k, FactsOfRecords(records)[..n])
    ensures ChainHash(k, FactsOfRecords(records)[..n]) == Ok(LoadAll(k, records, n).head)
  {
    var facts := FactsOfRecords(records)[..n];
    if n > 0 {
      var front := FactsOfRecords(records)[..n - 1];
      assert facts == front + [facts[n - 1]] && facts[n - 1] == records[n - 1].fact;
      assert FactHash(k, facts[n - 1]).Ok? && FaultAt(k, records, n - 1).None?;
      assert Hashable(k, front) by {
        assert forall i | 0 <= i < n - 1 :: front[i] == facts[i];
      }
      LoadedHeadIsChainHash(k, records, n - 1);
      HeadStep(k, records, n - 1);
      ChainHashStep(k, front, facts[n - 1], LoadAll(k, records, n - 1).head);
    }
  }

  // ---------------------------------------------------------------- logs without hash fields

  predicate StoresNothing(r: WalRecord) {
    r.contentHash.None? && r.prevHash.None? && r.chainHash.None?
  }

  lemma NoFaultWithoutFields(k: Kernel, records: seq<WalRecord>, i: nat)
    requires i < |records| && StoresNothing(records[i])
    ensures FaultAt(k, records, i).None?
  {
  }

  /** A log in the old format, which has no hash fields, loads without a fault; and then `verify` rejects it as
      soon as it holds two facts. */
  lemma OldFormatLoadsButFailsVerify(k: Kernel, records: seq<WalRecord>)
    requires Digests(k) && forall i | 0 <= i < |records| :: StoresNothing(records[i])
    ensures FaultFree(k, records, |records|)
    ensures LinksOk(k, LoadAll(k, records, |records|).entries) <==> |records| <= 1
  {
    forall i | 0 <= i < |records|
      ensures FaultAt(k, records, i).None?
    {
      NoFaultWithoutFields(k, records, i);
    }
    LoadedLinksIffStored(k, records);
    if |records| >= 2 {
      assert StoresNothing(records[1]);
    }
  }

  // ---------------------------------------------------------------- times

  predicate TimesAscend(entries: seq<AuditEntry>) {
    forall i, j | 0 <= i < j < |entries| :: entries[i].logicalTime < entries[j].logicalTime
  }

  lemma {:induction false} AuditedTimes(k: Kernel, s: Core, facts: seq<Fact>, j: nat)
    requires j < |s.entries| + |facts|
    ensures |AuditAll(k, s, facts).entries| == |s.entries| + |facts|
    ensures AuditAll(k, s, facts).entries[j].logicalTime
         == if j < |s.entries| then s.entries[j].logicalTime else s.clock + 1 + j - |s.entries|
  {
    AuditAllLengths(k, s, facts);
    if facts != [] {
      var front := facts[..|facts| - 1];
      AuditAllLengths(k, s, front);
      if j < |s.entries| + |front| {
        AuditedTimes(k, s, front, j);
      }
    }
  }

  /** A load of all records leaves the clock at or past every time it gave out; one that stops at record `n`
      leaves the clock as it was. So what is audited next comes later than everything loaded exactly when the
      load was complete or the clock stood past the loaded records already. */
  lemma TimesAscendAfterLoad(k: Kernel, records: seq<WalRecord>, n: nat, clock: nat, facts: seq<Fact>)
    requires n <= |records| && facts != []
    ensures TimesAscend(AuditAll(k, LoadedCore(k, records, n, clock), facts).entries) <==> n == |records| || n <= clock
  {
    var s := LoadedCore(k, records, n, clock);
    var t := AuditAll(k, s, facts).entries;
    LoadedLength(k, records, n);
    AuditedTimes(k, s, facts, 0);
    forall j | 0 <= j < |t|
      ensures t[j].logicalTime == if j < n then j + 1 else s.clock + 1 + j - n
    {
      AuditedTimes(k, s, facts, j);
      if j < n {
        LoadedAt(k, records, n, j);
      }
    }
    if n < |records| && clock < n {
      assert t[n - 1].logicalTime == n && t[n].logicalTime == clock + 1;
    } else {
      assert s.clock >= n;
    }
  }

  // ---------------------------------------------------------------- why a reader stops

  /** The stored content hash, if there is one, is the fact's. */
  predicate ContentFine(k: Kernel, r: WalRecord) {
    r.contentHash.Some? ==> FactHash(k, r.fact) == Ok(r.contentHash.value)
  }

  /** The stored link, if there is one, is the head. */
  predicate LinkFine(r: WalRecord, head: string) {
    r.prevHash.Some? ==> r.prevHash.value == head
  }

  /** The loader stops for the first of content, link and chain hash that is wrong, and says what it found and
      what it expected; while every fact before can be hashed, the head is the chain hash of their facts. */
  lemma LoaderTells(k: Kernel, records: seq<WalRecord>, i: nat, error: LoadError, head: string)
    requires StopsAt(k, records, i, error) && Hashable(k, FactsOfRecords(records)[..i])
    requires ChainHash(k, FactsOfRecords(records)[..i]) == Ok(head)
    ensures var (r, h) := (records[i], FactHash(k, records[i].fact));
            match error
            case HashFailed(index, cause) => index == i && r.contentHash.Some? && h == Err(cause)
            case ContentHashMismatch(index, id, stored, recomputed) =>
              index == i && id == r.fact.id
              && r.contentHash == Some(stored) && h == Ok(recomputed) && stored != recomputed
            case ChainBroken(index, id, stored, expected) =>
              index == i && id == r.fact.id && ContentFine(k, r)
              && r.prevHash == Some(stored) && expected == head != stored
            case ChainHashMismatch(index, id, stored, recomputed) =>
              index == i && id == r.fact.id && ContentFine(k, r) && LinkFine(r, head)
              && r.chainHash == Some(stored) && stored != recomputed
              && (h.Ok? ==> recomputed == k.blake3(head + h.value))
            case IoError(_) => false
  {
    LoadedHeadIsChainHash(k, records, i);
  }

  /** Accepted lines carry the chain hashes of their facts. */
  lemma {:induction false} LinesAreChain(k: Kernel, lines: seq<WalLine>, n: nat)
    requires n <= |lines| && LinesOk(k, lines, n)
    ensures ChainHash(k, FactsOfLines(lines)[..n]) == Ok(WalHead(lines, n))
  {
    if n > 0 {
      LinesOkSnoc(k, lines, n - 1);
      LinesAreChain(k, lines, n - 1);
      assert FactsOfLines(lines)[..n][..n - 1] == FactsOfLines(lines)[..n - 1];
      assert WalLineOk(k, lines, n - 1);
    }
  }

  /** The line verifier names step 1 for a link that is not the chain hash of the facts before, else step 2 for
      a content hash that is not the fact's, else step 3, and then the chain hash is not theirs together. */
  lemma LineVerifierTells(k: Kernel, lines: seq<WalLine>, i: nat)
    requires i < |lines| && LinesOk(k, lines, i) && !WalLineOk(k, lines, i)
    ensures var (line, facts, step) := (lines[i], FactsOfLines(lines), WalRejectStep(k, lines, i));
            var linked := ChainHash(k, facts[..i]) == Ok(line.prevHash);
            var matches := FactHash(k, line.fact) == Ok(line.contentHash);
            && (step == 1 <==> !linked) && (step == 2 <==> linked && !matches)
            && (step == 3 <==> linked && matches && ChainHash(k, facts[..i + 1]) != Ok(line.chainHash))
            && 1 <= step <= 3
  {
    LinesAreChain(k, lines, i);
    assert FactsOfLines(lines)[..i + 1][..i] == FactsOfLines(lines)[..i];
  }
}
