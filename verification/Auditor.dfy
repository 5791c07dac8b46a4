/** The auditor (evorule-governance/src/auditor.rs): an incremental consumer of an append-only
    fact log that keeps hash-chained entries, an index, a logical clock and signed anchors. */
module Auditor {
  import opened Base
  import opened Facts
  import opened HashChain
  import opened Anchors

  datatype AuditEntry = AuditEntry(
    factId: FactId, factType: string, logicalTime: nat, contentHash: string, prevHash: string, cause: Option<FactId>)

  datatype LoadError =
    | IoError(message: string)
    | HashFailed(index: nat, cause: HashError)
    | ContentHashMismatch(index: nat, factId: FactId, stored: string, recomputed: string)
    | ChainBroken(index: nat, factId: FactId, storedPrev: string, expectedPrev: string)
    | ChainHashMismatch(index: nat, factId: FactId, stored: string, recomputed: string)

  // ---------------------------------------------------------------- the audited core

  /** The part of the auditor that the log alone determines. */
  datatype Core = Core(entries: seq<AuditEntry>, index: map<FactId, nat>, lastHash: string, clock: nat)

  const EMPTY: Core := Core([], map[], GENESIS, 0)

  /** A fact that cannot be hashed leaves a placeholder entry, so that positions stay aligned. */
  const CORRUPTED: string := "corrupted-entry"

  function ContentOf(k: Kernel, f: Fact): string {
    match FactHash(k, f)
    case Ok(h) => h
    case Err(_) => CORRUPTED
  }

  function AuditOne(k: Kernel, s: Core, f: Fact): Core {
    var entry := AuditEntry(f.id, f.TypeName(), s.clock + 1, ContentOf(k, f), s.lastHash, ExtractCause(f));
    Core(s.entries + [entry], s.index[f.id := |s.entries|], ChainStep(k, s.lastHash, ContentOf(k, f)), s.clock + 1)
  }

  function AuditAll(k: Kernel, s: Core, facts: seq<Fact>): Core {
    if facts == [] then s else AuditOne(k, AuditAll(k, s, facts[..|facts| - 1]), facts[|facts| - 1])
  }

  lemma AuditAllSnoc(k: Kernel, s: Core, facts: seq<Fact>, f: Fact)
    ensures AuditAll(k, s, facts + [f]) == AuditOne(k, AuditAll(k, s, facts), f)
  {
    assert (facts + [f])[..|facts|] == facts;
  }

  lemma {:induction false} AuditAllConcat(k: Kernel, s: Core, a: seq<Fact>, b: seq<Fact>)
    ensures AuditAll(k, s, a + b) == AuditAll(k, AuditAll(k, s, a), b)
  {
    if b == [] {
      assert a + b == a;
    } else {
      assert (a + b)[..|a + b| - 1] == a + b[..|b| - 1];
      AuditAllConcat(k, s, a, b[..|b| - 1]);
    }
  }

  lemma {:induction false} AuditAllLengths(k: Kernel, s: Core, facts: seq<Fact>)
    ensures |AuditAll(k, s, facts).entries| == |s.entries| + |facts|
    ensures AuditAll(k, s, facts).clock == s.clock + |facts|
  {
    if facts != [] {
      AuditAllLengths(k, s, facts[..|facts| - 1]);
    }
  }

  // ---------------------------------------------------------------- checks on entries

  /** The head of the chain after the first `n` entries, recomputed from the last of them. */
  function HeadAfter(k: Kernel, entries: seq<AuditEntry>, n: nat): string
    requires n <= |entries|
  {
    if n == 0 then GENESIS else ChainStep(k, entries[n - 1].prevHash, entries[n - 1].contentHash)
  }

  predicate LinkOk(k: Kernel, entries: seq<AuditEntry>, i: nat)
    requires i < |entries|
  {
    entries[i].prevHash == HeadAfter(k, entries, i)
  }

  predicate LinksOk(k: Kernel, entries: seq<AuditEntry>) {
    forall i | 0 <= i < |entries| :: LinkOk(k, entries, i)
  }

  predicate ContentsOk(k: Kernel, entries: seq<AuditEntry>, facts: seq<Fact>)
    requires |entries| == |facts|
  {
    forall i | 0 <= i < |entries| :: FactHash(k, facts[i]) == Ok(entries[i].contentHash)
  }

  /** What `verify_deep` accepts. */
  predicate DeepOk(k: Kernel, entries: seq<AuditEntry>, facts: seq<Fact>) {
    |entries| == |facts| && LinksOk(k, entries) && ContentsOk(k, entries, facts)
  }

  predicate HeadMatches(k: Kernel, entries: seq<AuditEntry>, a: AuditAnchor) {
    a.proto.hi <= |entries| && HeadAfter(k, entries, a.proto.hi) == a.proto.chainHead
  }

  /** What `verify_anchors` accepts. */
  predicate FastOk(c: Crypto, entries: seq<AuditEntry>, anchors: seq<AuditAnchor>, keys: KeyTable) {
    && ChainValid(c, anchors, keys)
    && forall i | 0 <= i < |anchors| :: HeadMatches(c.kernel, entries, anchors[i])
  }

  /** Why `verify_deep` rejects: the lengths differ, a link is broken, or the first fact whose content hash is
      not the recorded one. */
  predicate DeepFault(k: Kernel, entries: seq<AuditEntry>, facts: seq<Fact>, error: LoadError) {
    match error
    case ChainBroken(index, _, _, _) => if |facts| != |entries| then index == U64_SIZE - 1 else index == 0 && !LinksOk(k, entries)
    case HashFailed(index, cause) =>
      FirstBadContent(k, entries, facts, index) && FactHash(k, facts[index]) == Err(cause)
    case ContentHashMismatch(index, factId, stored, recomputed) =>
      FirstBadContent(k, entries, facts, index) && FactHash(k, facts[index]) == Ok(recomputed)
      && factId == entries[index].factId && stored == entries[index].contentHash
    case _ => false
  }

  predicate FirstBadContent(k: Kernel, entries: seq<AuditEntry>, facts: seq<Fact>, index: nat) {
    && |facts| == |entries| && LinksOk(k, entries) && index < |entries|
    && FactHash(k, facts[index]) != Ok(entries[index].contentHash)
    && forall j | 0 <= j < index :: FactHash(k, facts[j]) == Ok(entries[j].contentHash)
  }

  datatype AnchorFault = InChain(cause: AnchorError) | BeyondEntries(index: nat) | HeadDiffers(index: nat)

  /** Why `verify_anchors` rejects: the chain, or the first anchor that reaches past the entries or whose head
      is not theirs. */
  predicate AnchorFaultAt(c: Crypto, entries: seq<AuditEntry>, anchors: seq<AuditAnchor>, keys: KeyTable, fault: AnchorFault) {
    match fault
    case InChain(cause) => FirstChainFault(c, anchors, keys, cause)
    case BeyondEntries(i) =>
      FirstBadHead(c, entries, anchors, keys, i) && anchors[i].proto.hi > |entries|
    case HeadDiffers(i) =>
      FirstBadHead(c, entries, anchors, keys, i) && anchors[i].proto.hi <= |entries|
  }

  /** What `verify_anchor_chain` finds wrong first. */
  predicate FirstChainFault(c: Crypto, anchors: seq<AuditAnchor>, keys: KeyTable, cause: AnchorError) {
    !ChainValid(c, anchors, keys)
    && exists i | 0 <= i < |anchors| :: AnchorFailure(c, anchors, keys, i) == Some(cause)
                                     && forall j | 0 <= j < i :: Continues(c, anchors, keys, j)
  }

  predicate FirstBadHead(c: Crypto, entries: seq<AuditEntry>, anchors: seq<AuditAnchor>, keys: KeyTable, i: nat) {
    && ChainValid(c, anchors, keys) && i < |anchors| && !HeadMatches(c.kernel, entries, anchors[i])
    && forall j | 0 <= j < i :: HeadMatches(c.kernel, entries, anchors[j])
  }

  // ---------------------------------------------------------------- causal tracing

  /** The index points into the entries. */
  predicate Indexed(s: Core) {
    forall id | id in s.index :: s.index[id] < |s.entries|
  }

  /** Walking up the causes from `id` lists at most `n` entries. */
  predicate EndsWithin(s: Core, id: FactId, n: nat)
    requires Indexed(s)
    decreases n
  {
    id !in s.index || PositionEnds(s, s.index[id], n)
  }

  predicate PositionEnds(s: Core, position: nat, n: nat)
    requires Indexed(s) && position < |s.entries|
    decreases n, 0
  {
    n > 0 && (s.entries[position].cause.None? || EndsWithin(s, s.entries[position].cause.value, n - 1))
  }

  /** The first `n` entries from `id` up to its root cause, or to the first cause that is not indexed. */
  function TraceFor(s: Core, id: FactId, n: nat): seq<AuditEntry>
    requires Indexed(s)
    decreases n
  {
    if n == 0 || id !in s.index then []
    else
      var e := s.entries[s.index[id]];
      [e] + if e.cause.Some? then TraceFor(s, e.cause.value, n - 1) else []
  }

  /** What is still to be listed when the walk stands at `current`. */
  function RestOfTrace(s: Core, current: Option<FactId>, n: nat): seq<AuditEntry>
    requires Indexed(s)
  {
    if current.None? then [] else TraceFor(s, current.value, n)
  }

  predicate RestEnds(s: Core, current: Option<FactId>, n: nat)
    requires Indexed(s)
  {
    current.None? || EndsWithin(s, current.value, n)
  }

  /** One entry further. */
  lemma TraceStep(s: Core, id: FactId, n: nat, chain: seq<AuditEntry>)
    requires Indexed(s) && id in s.index && EndsWithin(s, id, n)
    ensures n > 0
    ensures var e := s.entries[s.index[id]];
            && chain + TraceFor(s, id, n) == (chain + [e]) + RestOfTrace(s, e.cause, n - 1)
            && RestEnds(s, e.cause, n - 1)
  {
    var e := s.entries[s.index[id]];
    assert TraceFor(s, id, n) == [e] + RestOfTrace(s, e.cause, n - 1);
  }

  /** The whole walk, if it ends at all. */
  function TraceFrom(s: Core, id: FactId): seq<AuditEntry>
    requires Indexed(s)
  {
    TraceFor(s, id, |s.entries|)
  }

  // ---------------------------------------------------------------- the whole auditor as a value

  datatype AuditorView = AuditorView(
    core: Core, builder: Option<BuilderView>, interval: nat, anchors: seq<AuditAnchor>)

  /** Whether `audit_new` closes an anchor: enough facts since the last one. */
  predicate SealDue(v: AuditorView) {
    && v.builder.Some? && v.interval > 0
    && |v.core.entries| - v.builder.value.nextLo >= v.interval
  }

  function SealNext(c: Crypto, v: AuditorView): AuditAnchor
    requires v.builder.Some?
  {
    Sealed(c, v.builder.value, |v.core.entries|, v.core.lastHash)
  }

  function AfterSealing(c: Crypto, v: AuditorView): AuditorView
    requires v.builder.Some?
  {
    v.(anchors := v.anchors + [SealNext(c, v)],
       builder := Some(AfterSeal(c, v.builder.value, |v.core.entries|, v.core.lastHash)))
  }

  function Audited(c: Crypto, v: AuditorView, history: seq<Fact>): AuditorView
    requires |v.core.entries| <= |history|
  {
    v.(core := AuditAll(c.kernel, v.core, history[|v.core.entries|..]))
  }

  /** The state after `audit_new` over a log holding `history`. */
  function AuditNewView(c: Crypto, v: AuditorView, history: seq<Fact>): AuditorView {
    if |v.core.entries| >= |history| then v
    else
      var w := Audited(c, v, history);
      if SealDue(w) then AfterSealing(c, w) else w
  }

  /** The anchors written to the log when the state goes from `v` to `w`. */
  function NewAnchors(v: AuditorView, w: AuditorView): seq<AuditAnchor> {
    if |v.anchors| <= |w.anchors| then w.anchors[|v.anchors|..] else []
  }

  /** The builder state rebuilt from a restored anchor list. */
  function RebuiltBuilder(seed: string, keyId: string, engineId: string, sessionId: string, anchors: seq<AuditAnchor>): BuilderView {
    if anchors == [] then FreshBuilder(seed, keyId, engineId, sessionId)
    else
      var last := anchors[|anchors| - 1];
      BuilderView(seed, keyId, engineId, sessionId, last.anchorHash, last.proto.seqNo + 1, last.proto.hi)
  }

  /** `None` is a damaged line of the anchor log, which the loader skips. */
  type LogLine = Option<AuditAnchor>

  function ReadableLines(lines: seq<LogLine>): seq<AuditAnchor> {
    if lines == [] then []
    else
      var front := ReadableLines(lines[..|lines| - 1]);
      var last := lines[|lines| - 1];
      if last.Some? then front + [last.value] else front
  }

  function Written(anchors: seq<AuditAnchor>): seq<LogLine> {
    seq(|anchors|, i requires 0 <= i < |anchors| => Some(anchors[i]))
  }

  /** The anchor log; `torn` says that a crash cut its last line off before the line break. */
  datatype LogFile = LogFile(lines: seq<LogLine>, torn: bool)

  /** One more anchor at the end. Behind a torn line it joins that line, and neither can be read. */
  function Appended(file: LogFile, a: AuditAnchor): LogFile {
    if file.torn && file.lines != [] then LogFile(file.lines[..|file.lines| - 1] + [None], false)
    else LogFile(file.lines + [Some(a)], false)
  }

  function AppendedAll(file: LogFile, anchors: seq<AuditAnchor>): LogFile {
    if anchors == [] then file
    else Appended(AppendedAll(file, anchors[..|anchors| - 1]), anchors[|anchors| - 1])
  }

  lemma AppendedOne(file: LogFile, a: AuditAnchor)
    ensures AppendedAll(file, [a]) == Appended(file, a)
  {
    assert [a][..0] == [];
  }

  // ---------------------------------------------------------------- WAL records

  datatype WalRecord = WalRecord(
    fact: Fact, contentHash: Option<string>, prevHash: Option<string>, chainHash: Option<string>)

  const FACT_TYPE_TABLE: seq<string> :=
    ["Command", "PayloadUpdate", "StateTransition", "IoRequest", "IoResponse", "Stable", "Error", "Unknown"]

  function TableName(name: string): string {
    if name in FACT_TYPE_TABLE then name else "Unknown"
  }

  /** The content hash a record contributes: the stored one, else a recomputed one, else nothing. */
  function RecordContent(k: Kernel, r: WalRecord): string {
    match r.contentHash
    case Some(h) => h
    case None => if FactHash(k, r.fact).Ok? then FactHash(k, r.fact).value else ""
  }

  /** The fault that stops loading at record `i` when the chain head before it is `head`. */
  function RecordFault(k: Kernel, head: string, r: WalRecord, i: nat): Option<LoadError> {
    var content := RecordContent(k, r);
    if r.contentHash.Some? && FactHash(k, r.fact).Err? then Some(HashFailed(i, FactHash(k, r.fact).error))
    else if r.contentHash.Some? && FactHash(k, r.fact).value != r.contentHash.value then
      Some(ContentHashMismatch(i, r.fact.id, r.contentHash.value, FactHash(k, r.fact).value))
    else if r.prevHash.Some? && r.prevHash.value != head then
      Some(LoadError.ChainBroken(i, r.fact.id, r.prevHash.value, head))
    else if r.chainHash.Some? && r.chainHash.value != ChainStep(k, head, content) then
      Some(ChainHashMismatch(i, r.fact.id, r.chainHash.value, ChainStep(k, head, content)))
    else None
  }

  function RecordEntry(k: Kernel, r: WalRecord, i: nat): AuditEntry {
    AuditEntry(r.fact.id, TableName(r.fact.TypeName()), i + 1, RecordContent(k, r),
               if r.prevHash.Some? then r.prevHash.value else GENESIS, ExtractCause(r.fact))
  }

  /** Entries, index and chain head after accepting all of `records`. */
  datatype Loaded = Loaded(entries: seq<AuditEntry>, index: map<FactId, nat>, head: string)

  function LoadOne(k: Kernel, s: Loaded, r: WalRecord, i: nat): Loaded {
    Loaded(s.entries + [RecordEntry(k, r, i)], s.index[r.fact.id := i], ChainStep(k, s.head, RecordContent(k, r)))
  }

  function LoadAll(k: Kernel, records: seq<WalRecord>, n: nat): Loaded
    requires n <= |records|
  {
    if n == 0 then Loaded([], map[], GENESIS) else LoadOne(k, LoadAll(k, records, n - 1), records[n - 1], n - 1)
  }

  /** The fault at record `i`, given that the ones before it were accepted. */
  function FaultAt(k: Kernel, records: seq<WalRecord>, i: nat): Option<LoadError>
    requires i < |records|
  {
    RecordFault(k, LoadAll(k, records, i).head, records[i], i)
  }

  predicate FaultFree(k: Kernel, records: seq<WalRecord>, n: nat)
    requires n <= |records|
  {
    forall i | 0 <= i < n :: FaultAt(k, records, i).None?
  }

  /** An accepted record that stores its chain hash stores the recomputed one. */
  lemma StoredHeadIsHead(k: Kernel, records: seq<WalRecord>, n: nat)
    requires n <= |records| && FaultFree(k, records, n)
    ensures n > 0 && records[n - 1].chainHash.Some? ==> records[n - 1].chainHash.value == LoadAll(k, records, n).head
  {
    if n > 0 {
      assert FaultAt(k, records, n - 1).None?;
    }
  }

  /** Loading stops at record `i`, the first with a fault. */
  predicate StopsAt(k: Kernel, records: seq<WalRecord>, i: nat, error: LoadError) {
    i < |records| && FaultFree(k, records, i) && FaultAt(k, records, i) == Some(error)
  }

  /** The core after a load: of all the records, or of those before the first fault. */
  function LoadedCore(k: Kernel, records: seq<WalRecord>, n: nat, clock: nat): Core
    requires n <= |records|
  {
    var s := LoadAll(k, records, n);
    if n < |records| then Core(s.entries, s.index, GENESIS, clock)
    else Core(s.entries, s.index, s.head, if clock < n then n else clock)
  }

  /** Loading stopped at record `i` and left the core in `after`. */
  predicate FailedLoad(k: Kernel, records: seq<WalRecord>, i: nat, error: LoadError, after: Core, clock: nat) {
    StopsAt(k, records, i, error) && after == LoadedCore(k, records, i, clock)
  }

  // ---------------------------------------------------------------- the objects

  class FactsLog {
    var history: seq<Fact>

    constructor ()
      ensures history == []
    {
      history := [];
    }

    method Append(f: Fact)
      modifies this
      ensures history == old(history) + [f]
    {
      history := history + [f];
    }
  }

  /** The JSONL file of sealed anchors; it outlives the auditor. A write that fails is only reported. */
  class AnchorLog {
    var file: LogFile
    var readable: bool
    var writable: bool

    constructor ()
      ensures file == LogFile([], false) && readable && writable
    {
      file, readable, writable := LogFile([], false), true, true;
    }

    method Persist(a: AuditAnchor)
      modifies this`file
      ensures file == if writable then Appended(old(file), a) else old(file)
    {
      if writable {
        var n := |file.lines|;
        if file.torn && n > 0 {
          file := LogFile(file.lines[..n - 1] + [None], false);
        } else {
          file := LogFile(file.lines + [Some(a)], false);
        }
      }
    }

    method Load() returns (anchors: Option<seq<AuditAnchor>>)
      ensures anchors == if readable then Some(ReadableLines(file.lines)) else None
    {
      if !readable {
        return None;
      }
      var lines := file.lines;
      var read: seq<AuditAnchor> := [];
      for i := 0 to |lines|
        invariant read == ReadableLines(lines[..i])
      {
        assert lines[..i + 1][..i] == lines[..i];
        if lines[i].Some? {
          read := read + [lines[i].value];
        }
      }
      assert lines[..|lines|] == lines;
      return Some(read);
    }
  }

  class Auditor {
    const crypto: Crypto
    const log: FactsLog
    var entries: seq<AuditEntry>
    var index: map<FactId, nat>
    var lastHash: string
    var clock: nat
    var builder: AnchorChainBuilder?
    var interval: nat
    var anchors: seq<AuditAnchor>
    var anchorLog: AnchorLog?

    function CoreView(): Core
      reads this
    {
      Core(entries, index, lastHash, clock)
    }

    function View(): AuditorView
      reads this, builder
    {
      AuditorView(CoreView(), if builder == null then None else Some(builder.View()), interval, anchors)
    }

    constructor (crypto: Crypto, log: FactsLog)
      ensures this.crypto == crypto && this.log == log && anchorLog == null && builder == null
      ensures View() == AuditorView(EMPTY, None, 0, [])
    {
      this.crypto, this.log := crypto, log;
      entries, index, lastHash, clock := [], map[], GENESIS, 0;
      builder, interval, anchors, anchorLog := null, 0, [], null;
    }

    /** What the anchor log holds after the anchors `sealed` were offered to it. */
    twostate predicate LogHolds(sealed: seq<AuditAnchor>)
      reads this, anchorLog
    {
      anchorLog == old(anchorLog) && (anchorLog != null ==>
        && unchanged(anchorLog`readable) && unchanged(anchorLog`writable)
        && anchorLog.file == if anchorLog.writable then AppendedAll(old(anchorLog.file), sealed) else old(anchorLog.file))
    }

    /** Configure anchoring; with a log that can be read, restore its anchors and continue their chain. */
    method WithAnchor(seed: string, keyId: string, engineId: string, sessionId: string, interval: nat, anchorLog: AnchorLog?)
      modifies this
      ensures this.anchorLog == anchorLog && builder != null && fresh(builder) && CoreView() == old(CoreView())
      ensures var restored := anchorLog != null && anchorLog.readable;
              var read := if restored then ReadableLines(anchorLog.file.lines) else [];
              View() == AuditorView(old(CoreView()), Some(RebuiltBuilder(seed, keyId, engineId, sessionId, read)),
                                    interval, if restored then read else old(anchors))
    {
      builder := new AnchorChainBuilder(seed, keyId, engineId, sessionId);
      this.interval := interval;
      if anchorLog != null {
        var restored := anchorLog.Load();
        if restored.Some? {
          anchors := restored.value;
          if anchors != [] {
            var last := anchors[|anchors| - 1];
            builder := new AnchorChainBuilder.WithPrev(
              seed, keyId, engineId, sessionId, last.anchorHash, last.proto.seqNo + 1, last.proto.hi);
          }
        }
      }
      this.anchorLog := anchorLog;
    }

    /** Seal the audited prefix, append the anchor to the list and to the log. */
    method SealCurrent() returns (a: AuditAnchor)
      requires builder != null
      modifies this`anchors, builder, anchorLog
      ensures View() == AfterSealing(crypto, old(View())) && a == SealNext(crypto, old(View()))
      ensures LogHolds([a])
    {
      a := builder.Seal(crypto, |entries|, lastHash);
      if anchorLog != null {
        AppendedOne(anchorLog.file, a);
        anchorLog.Persist(a);
      }
      anchors := anchors + [a];
    }

    method SealAnchorNow() returns (r: Option<AuditAnchor>)
      modifies this`anchors, builder, anchorLog
      ensures r.Some? <==> builder != null
      ensures r.None? ==> View() == old(View())
      ensures r.Some? ==> View() == AfterSealing(crypto, old(View())) && r.value == SealNext(crypto, old(View()))
      ensures LogHolds(NewAnchors(old(View()), View()))
    {
      if builder == null {
        return None;
      }
      var a := SealCurrent();
      assert NewAnchors(old(View()), View()) == [a];
      return Some(a);
    }

    /** Audit the facts the log holds beyond the entries, then seal if enough are uncovered. */
    method AuditNew() returns (count: nat)
      modifies this, builder, anchorLog
      ensures builder == old(builder) && anchorLog == old(anchorLog)
      ensures View() == AuditNewView(crypto, old(View()), log.history)
      ensures count == |View().core.entries| - |old(View()).core.entries|
      ensures LogHolds(NewAnchors(old(View()), View()))
    {
      var start := |entries|;
      if start >= |log.history| {
        assert NewAnchors(old(View()), View()) == [];
        return 0;
      }
      AuditTail();
      AuditAllLengths(crypto.kernel, old(CoreView()), log.history[start..]);
      count := |log.history| - start;
      SealIfDue();
    }

    /** Close an anchor once the facts not yet covered by one reach the interval. */
    method SealIfDue()
      modifies this`anchors, builder, anchorLog
      ensures View() == if SealDue(old(View())) then AfterSealing(crypto, old(View())) else old(View())
      ensures LogHolds(NewAnchors(old(View()), View()))
    {
      if builder != null {
        var covered := builder.lastFactHi;
        var uncovered := if |entries| >= covered then |entries| - covered else 0;
        if interval > 0 && uncovered >= interval {
          var a := SealCurrent();
          assert NewAnchors(old(View()), View()) == [a];
          return;
        }
      }
      assert NewAnchors(old(View()), View()) == [];
    }

    /** The audit loop: one entry per fact of the log beyond the entries. */
    method AuditTail()
      requires |entries| <= |log.history|
      modifies this`entries, this`index, this`lastHash, this`clock
      ensures CoreView() == AuditAll(crypto.kernel, old(CoreView()), log.history[|old(entries)|..])
    {
      ghost var before := CoreView();
      var start := |entries|;
      var tail := log.history[start..];
      for i := 0 to |tail|
        invariant CoreView() == AuditAll(crypto.kernel, before, tail[..i]) && |entries| == start + i
      {
        assert tail[..i + 1] == tail[..i] + [tail[i]];
        AuditAllSnoc(crypto.kernel, before, tail[..i], tail[i]);
        AuditFact(tail[i]);
      }
      assert tail[..|tail|] == tail;
    }

    method AuditFact(f: Fact)
      modifies this`entries, this`index, this`lastHash, this`clock
      ensures CoreView() == AuditOne(crypto.kernel, old(CoreView()), f)
    {
      clock := clock + 1;
      var hashed := FactHash(crypto.kernel, f);
      var content := if hashed.Ok? then hashed.value else CORRUPTED;
      index := index[f.id := |entries|];
      entries := entries + [AuditEntry(f.id, f.TypeName(), clock, content, lastHash, ExtractCause(f))];
      lastHash := ChainStep(crypto.kernel, lastHash, content);
    }

    method Verify() returns (ok: bool)
      ensures ok <==> LinksOk(crypto.kernel, entries)
    {
      var prevHash := GENESIS;
      for i := 0 to |entries|
        invariant prevHash == HeadAfter(crypto.kernel, entries, i)
        invariant forall j | 0 <= j < i :: LinkOk(crypto.kernel, entries, j)
      {
        if entries[i].prevHash != prevHash {
          assert !LinkOk(crypto.kernel, entries, i);
          return false;
        }
        prevHash := ChainStep(crypto.kernel, entries[i].prevHash, entries[i].contentHash);
      }
      return true;
    }

    method VerifyDeep(facts: seq<Fact>) returns (r: Result<(), LoadError>)
      ensures r.Ok? <==> DeepOk(crypto.kernel, entries, facts)
      ensures r.Err? ==> DeepFault(crypto.kernel, entries, facts, r.error)
    {
      if |facts| != |entries| {
        return Err(LoadError.ChainBroken(U64_SIZE - 1, 0, "", ""));
      }
      var linked := Verify();
      if !linked {
        return Err(LoadError.ChainBroken(0, 0, "", ""));
      }
      for i := 0 to |entries|
        invariant forall j | 0 <= j < i :: FactHash(crypto.kernel, facts[j]) == Ok(entries[j].contentHash)
      {
        var recomputed := FactHash(crypto.kernel, facts[i]);
        if recomputed.Err? {
          return Err(HashFailed(i, recomputed.error));
        }
        if recomputed.value != entries[i].contentHash {
          return Err(ContentHashMismatch(i, entries[i].factId, entries[i].contentHash, recomputed.value));
        }
      }
      return Ok(());
    }

    /** Check the anchor chain, then each anchor against one table of prefix heads. */
    method VerifyAnchors(keys: KeyTable) returns (r: Result<(), AnchorFault>)
      ensures r.Ok? <==> FastOk(crypto, entries, anchors, keys)
      ensures r.Err? ==> AnchorFaultAt(crypto, entries, anchors, keys, r.error)
    {
      var chain := VerifyAnchorChain(crypto, anchors, keys);
      if chain.Err? {
        return Err(InChain(chain.error));
      }
      var heads := [GENESIS];
      for i := 0 to |entries|
        invariant |heads| == i + 1
        invariant forall j | 0 <= j <= i :: heads[j] == HeadAfter(crypto.kernel, entries, j)
      {
        heads := heads + [ChainStep(crypto.kernel, entries[i].prevHash, entries[i].contentHash)];
      }
      for i := 0 to |anchors|
        invariant forall j | 0 <= j < i :: HeadMatches(crypto.kernel, entries, anchors[j])
      {
        var a := anchors[i];
        if a.proto.hi >= |heads| {
          assert FirstBadHead(crypto, entries, anchors, keys, i);
          return Err(BeyondEntries(i));
        }
        if heads[a.proto.hi] != a.proto.chainHead {
          assert FirstBadHead(crypto, entries, anchors, keys, i);
          return Err(HeadDiffers(i));
        }
      }
      return Ok(());
    }

    /** Walk the causes of `factId`. The walk must end: if it does not within as many steps as there are
        entries, it never does. */
    method CausalChain(factId: FactId) returns (chain: seq<AuditEntry>)
      requires Indexed(CoreView()) && EndsWithin(CoreView(), factId, |entries|)
      ensures chain == TraceFrom(CoreView(), factId)
    {
      chain := [];
      var current: Option<FactId> := Some(factId);
      ghost var left: nat := |entries|;
      while current.Some?
        invariant RestEnds(CoreView(), current, left)
        invariant chain + RestOfTrace(CoreView(), current, left) == TraceFrom(CoreView(), factId)
        decreases current.Some?, left
      {
        if current.value !in index {
          break;
        }
        TraceStep(CoreView(), current.value, left, chain);
        var entry := entries[index[current.value]];
        current := entry.cause;
        chain := chain + [entry];
        left := left - 1;
      }
    }

    /** Rebuild the core from WAL records, checking the stored hashes; the anchors are left alone.
        A failure part way leaves the entries loaded so far with the chain head back at genesis. */
    method LoadFromTier1Wal(read: Result<seq<WalRecord>, string>) returns (r: Result<(), LoadError>)
      modifies this`entries, this`index, this`lastHash, this`clock
      ensures read.Err? ==> r == Err(IoError(read.error)) && CoreView() == old(CoreView())
      ensures read.Ok? && r.Ok? ==>
                && FaultFree(crypto.kernel, read.value, |read.value|)
                && CoreView() == LoadedCore(crypto.kernel, read.value, |read.value|, old(clock))
      ensures read.Ok? && r.Err? ==>
                exists i :: FailedLoad(crypto.kernel, read.value, i, r.error, CoreView(), old(clock))
    {
      if read.Err? {
        return Err(IoError(read.error));
      }
      var records := read.value;
      entries, index, lastHash := [], map[], GENESIS;
      var head, hasHashFields, failure, stop := ReplayRecords(records);
      if failure.Some? {
        assert FailedLoad(crypto.kernel, records, stop, failure.value, CoreView(), clock);
        return Err(failure.value);
      }
      StoredHeadIsHead(crypto.kernel, records, |records|);
      if hasHashFields && records != [] && records[|records| - 1].chainHash.Some? {
        lastHash := records[|records| - 1].chainHash.value;
      } else {
        lastHash := head;
      }
      TickUntil(|records|);
      return Ok(());
    }

    /** Check and append the records one by one, up to the first fault. */
    method ReplayRecords(records: seq<WalRecord>)
      returns (head: string, hasHashFields: bool, failure: Option<LoadError>, stop: nat)
      requires entries == [] && index == map[]
      modifies this`entries, this`index
      ensures failure.None? ==> stop == |records| && FaultFree(crypto.kernel, records, stop)
      ensures failure.Some? ==> StopsAt(crypto.kernel, records, stop, failure.value)
      ensures Loaded(entries, index, head) == LoadAll(crypto.kernel, records, stop)
    {
      head, hasHashFields, stop, failure := GENESIS, false, 0, None;
      while stop < |records|
        invariant stop <= |records| && failure.None? && FaultFree(crypto.kernel, records, stop)
        invariant Loaded(entries, index, head) == LoadAll(crypto.kernel, records, stop)
      {
        if records[stop].chainHash.Some? {
          hasHashFields := true;
        }
        failure := CheckRecord(crypto.kernel, head, records[stop], stop);
        if failure.Some? {
          return;
        }
        head := AcceptRecord(head, records[stop], stop);
        stop := stop + 1;
      }
    }

    method AcceptRecord(head: string, r: WalRecord, i: nat) returns (chain: string)
      modifies this`entries, this`index
      ensures Loaded(entries, index, chain) == LoadOne(crypto.kernel, Loaded(old(entries), old(index), head), r, i)
    {
      chain := ChainStep(crypto.kernel, head, RecordContent(crypto.kernel, r));
      index := index[r.fact.id := i];
      entries := entries + [RecordEntry(crypto.kernel, r, i)];
    }

    method TickUntil(t: nat)
      modifies this`clock
      ensures clock == if old(clock) < t then t else old(clock)
    {
      while clock < t
        invariant old(clock) <= clock <= if old(clock) < t then t else old(clock)
      {
        clock := clock + 1;
      }
    }
  }

  /** The three checks on one record, in the order of the loader: content, link, chain. */
  method CheckRecord(k: Kernel, head: string, r: WalRecord, i: nat) returns (fault: Option<LoadError>)
    ensures fault == RecordFault(k, head, r, i)
  {
    if r.contentHash.Some? {
      var recomputed := FactHash(k, r.fact);
      if recomputed.Err? {
        return Some(HashFailed(i, recomputed.error));
      }
      if r.contentHash.value != recomputed.value {
        return Some(ContentHashMismatch(i, r.fact.id, r.contentHash.value, recomputed.value));
      }
    }
    if r.prevHash.Some? && r.prevHash.value != head {
      return Some(LoadError.ChainBroken(i, r.fact.id, r.prevHash.value, head));
    }
    var chain := ChainStep(k, head, RecordContent(k, r));
    if r.chainHash.Some? && r.chainHash.value != chain {
      return Some(ChainHashMismatch(i, r.fact.id, r.chainHash.value, chain));
    }
    return None;
  }
}
