/** Whole runs of the auditor: facts are appended to the log, audited, sealed at intervals or on
    demand, and the process is restarted from the anchor log, in any order. */
module AuditRuns {
  import opened Base
  import opened Facts
  import opened HashChain
  import opened Anchors
  import opened Auditor

  /** What `with_anchor` is configured with; a restart may change all of it. */
  datatype Config = Config(seed: string, keyId: string, engineId: string, sessionId: string, interval: nat)

  /** The fact log and the anchor log outlive the auditor. */
  datatype Sys = Sys(history: seq<Fact>, file: LogFile, auditor: AuditorView)

  datatype Op = Grow(fact: Fact) | Audit | SealNow | Restart(cfg: Config)

  /** A new auditor over an anchor log. */
  function Rebuilt(cfg: Config, anchors: seq<AuditAnchor>): AuditorView {
    AuditorView(EMPTY, Some(RebuiltBuilder(cfg.seed, cfg.keyId, cfg.engineId, cfg.sessionId, anchors)), cfg.interval, anchors)
  }

  function Start(cfg: Config): Sys {
    Sys([], LogFile([], false), Rebuilt(cfg, []))
  }

  function Step(c: Crypto, s: Sys, op: Op): Sys {
    match op
    case Grow(f) => s.(history := s.history + [f])
    case Audit =>
      var w := AuditNewView(c, s.auditor, s.history);
      s.(auditor := w, file := AppendedAll(s.file, NewAnchors(s.auditor, w)))
    case SealNow =>
      if s.auditor.builder.None? then s
      else s.(auditor := AfterSealing(c, s.auditor), file := Appended(s.file, SealNext(c, s.auditor)))
    case Restart(cfg) => s.(auditor := Rebuilt(cfg, ReadableLines(s.file.lines)))
  }

  function Run(c: Crypto, s: Sys, ops: seq<Op>): Sys {
    if ops == [] then s else Step(c, Run(c, s, ops[..|ops| - 1]), ops[|ops| - 1])
  }

  /** One step of the machine is one call on the objects, while the anchor log can be read and written. */
  method Perform(auditor: Auditor, anchorLog: AnchorLog, op: Op) returns (next: Auditor)
    requires auditor.anchorLog == anchorLog && auditor.builder != null && anchorLog.readable && anchorLog.writable
    modifies auditor, auditor.builder, auditor.log, anchorLog
    ensures anchorLog.readable && anchorLog.writable && next.builder != null
    ensures next.anchorLog == anchorLog && next.log == auditor.log && next.crypto == auditor.crypto
    ensures Sys(next.log.history, anchorLog.file, next.View())
         == Step(auditor.crypto, old(Sys(auditor.log.history, anchorLog.file, auditor.View())), op)
  {
    next := auditor;
    match op {
      case Grow(f) => auditor.log.Append(f);
      case Audit => var _ := auditor.AuditNew();
      case SealNow =>
        var a := auditor.SealCurrent();
        AppendedOne(old(anchorLog.file), a);
      case Restart(cfg) =>
        next := new Auditor(auditor.crypto, auditor.log);
        next.WithAnchor(cfg.seed, cfg.keyId, cfg.engineId, cfg.sessionId, cfg.interval, anchorLog);
    }
  }

  // ---------------------------------------------------------------- what the entries are

  /** Entry `i` describes fact `i`, on top of the chain over the facts before it. */
  predicate Describes(k: Kernel, facts: seq<Fact>, i: nat, e: AuditEntry)
    requires i < |facts|
  {
    && e.factId == facts[i].id && e.factType == facts[i].TypeName() && e.cause == ExtractCause(facts[i])
    && e.logicalTime == i + 1
    && e.contentHash == ContentOf(k, facts[i])
    && e.prevHash == AuditAll(k, EMPTY, facts[..i]).lastHash
  }

  lemma {:induction false} EntriesDescribe(k: Kernel, facts: seq<Fact>, i: nat)
    requires i < |facts|
    ensures |AuditAll(k, EMPTY, facts).entries| == |facts|
    ensures Describes(k, facts, i, AuditAll(k, EMPTY, facts).entries[i])
  {
    var n := |facts| - 1;
    var front := facts[..n];
    var before, after := AuditAll(k, EMPTY, front), AuditAll(k, EMPTY, facts);
    AuditAllLengths(k, EMPTY, front);
    assert after == AuditOne(k, before, facts[n]);
    if i < n {
      EntriesDescribe(k, front, i);
      assert front[..i] == facts[..i] && front[i] == facts[i];
      assert after.entries[i] == before.entries[i];
    }
  }

  predicate HasId(facts: seq<Fact>, id: FactId) {
    exists i | 0 <= i < |facts| :: facts[i].id == id
  }

  /** `p` is the last position with the id. */
  predicate LastAt(facts: seq<Fact>, id: FactId, p: nat) {
    p < |facts| && facts[p].id == id && forall j | p < j < |facts| :: facts[j].id != id
  }

  lemma HasIdSnoc(facts: seq<Fact>, f: Fact, id: FactId)
    ensures HasId(facts + [f], id) <==> HasId(facts, id) || f.id == id
    ensures forall p: nat | LastAt(facts, id, p) && f.id != id :: LastAt(facts + [f], id, p)
    ensures f.id == id ==> LastAt(facts + [f], id, |facts|)
  {
    var longer := facts + [f];
    assert longer[|facts|] == f;
    if HasId(facts, id) {
      var i :| 0 <= i < |facts| && facts[i].id == id;
      assert longer[i].id == id;
    }
  }

  /** The index holds exactly the audited ids, each at its last position. */
  lemma {:induction false} IndexIsLastPosition(k: Kernel, facts: seq<Fact>, id: FactId)
    ensures var index := AuditAll(k, EMPTY, facts).index;
            (id in index <==> HasId(facts, id)) && (id in index ==> LastAt(facts, id, index[id]))
  {
    if facts != [] {
      var n := |facts| - 1;
      AuditAllLengths(k, EMPTY, facts[..n]);
      IndexIsLastPosition(k, facts[..n], id);
      HasIdSnoc(facts[..n], facts[n], id);
      assert facts == facts[..n] + [facts[n]];
    }
  }

  /** The head recomputed from the first `n` entries is the chain head of the first `n` facts. */
  lemma HeadOfPrefix(k: Kernel, facts: seq<Fact>, n: nat)
    requires n <= |facts|
    ensures |AuditAll(k, EMPTY, facts).entries| == |facts|
    ensures HeadAfter(k, AuditAll(k, EMPTY, facts).entries, n) == AuditAll(k, EMPTY, facts[..n]).lastHash
  {
    AuditAllLengths(k, EMPTY, facts);
    if n > 0 {
      EntriesDescribe(k, facts, n - 1);
      assert facts[..n][..n - 1] == facts[..n - 1];
    }
  }

  /** `verify` accepts whatever was audited. */
  lemma AuditedLinksOk(k: Kernel, facts: seq<Fact>)
    ensures LinksOk(k, AuditAll(k, EMPTY, facts).entries)
  {
    var es := AuditAll(k, EMPTY, facts).entries;
    AuditAllLengths(k, EMPTY, facts);
    forall i | 0 <= i < |es|
      ensures LinkOk(k, es, i)
    {
      EntriesDescribe(k, facts, i);
      HeadOfPrefix(k, facts, i);
    }
  }

  /** `verify_deep` accepts the audited facts exactly when every one of them can be hashed. */
  lemma AuditedDeepOk(k: Kernel, facts: seq<Fact>)
    ensures DeepOk(k, AuditAll(k, EMPTY, facts).entries, facts) <==> Hashable(k, facts)
  {
    var es := AuditAll(k, EMPTY, facts).entries;
    AuditAllLengths(k, EMPTY, facts);
    AuditedLinksOk(k, facts);
    forall i | 0 <= i < |facts|
      ensures es[i].contentHash == ContentOf(k, facts[i])
    {
      EntriesDescribe(k, facts, i);
    }
    if ContentsOk(k, es, facts) {
      assert forall i | 0 <= i < |facts| :: FactHash(k, facts[i]) == Ok(es[i].contentHash);
    }
  }

  /** The running head is the chain hash of the audited facts, when that exists. */
  lemma {:induction false} RunningHeadIsChainHash(k: Kernel, facts: seq<Fact>)
    ensures ChainHash(k, facts).Ok? ==> AuditAll(k, EMPTY, facts).lastHash == ChainHash(k, facts).value
  {
    if facts != [] {
      RunningHeadIsChainHash(k, facts[..|facts| - 1]);
    }
  }

  // ---------------------------------------------------------------- the fast check refines the simple one

  /** Entries that pass the deep check carry the chain hash of every prefix. */
  lemma {:induction false} DeepHeads(k: Kernel, entries: seq<AuditEntry>, facts: seq<Fact>, n: nat)
    requires DeepOk(k, entries, facts) && n <= |facts|
    ensures ChainHash(k, facts[..n]) == Ok(HeadAfter(k, entries, n))
  {
    if n > 0 {
      DeepHeads(k, entries, facts, n - 1);
      assert facts[..n][..n - 1] == facts[..n - 1];
      assert LinkOk(k, entries, n - 1);
      assert FactHash(k, facts[n - 1]) == Ok(entries[n - 1].contentHash);
    }
  }

  /** On entries that pass `verify_deep`, the one-table check of `verify_anchors` accepts exactly when the
      chain verifier accepts and recomputing every prefix from genesis matches. */
  lemma FastRefinesSimple(c: Crypto, entries: seq<AuditEntry>, facts: seq<Fact>, anchors: seq<AuditAnchor>, keys: KeyTable)
    requires DeepOk(c.kernel, entries, facts)
    ensures FastOk(c, entries, anchors, keys) <==> ChainValid(c, anchors, keys) && Bound(c.kernel, facts, anchors)
  {
    forall i | 0 <= i < |anchors|
      ensures HeadMatches(c.kernel, entries, anchors[i]) <==> BoundAt(c.kernel, facts, anchors[i])
    {
      if anchors[i].proto.hi <= |facts| {
        DeepHeads(c.kernel, entries, facts, anchors[i].proto.hi);
      }
    }
  }

  // ---------------------------------------------------------------- the invariant of every run

  ghost predicate Knows(c: Crypto, keys: KeyTable, cfg: Config) {
    cfg.keyId in keys && keys[cfg.keyId] == c.publicKey(cfg.seed)
  }

  /** The key table knows the signer of every restart. */
  ghost predicate SignersKnown(c: Crypto, keys: KeyTable, ops: seq<Op>) {
    forall i | 0 <= i < |ops| :: ops[i].Restart? ==> Knows(c, keys, ops[i].cfg)
  }

  /** The auditor holds exactly the audited prefix of the log. */
  predicate CoreInv(k: Kernel, s: Sys) {
    && |s.auditor.core.entries| <= |s.history|
    && s.auditor.core == AuditAll(k, EMPTY, s.history[..|s.auditor.core.entries|])
  }

  /** The anchor covers facts that exist, and carries the chain head over them. */
  predicate Anchored(k: Kernel, history: seq<Fact>, a: AuditAnchor) {
    a.proto.hi <= |history| && a.proto.chainHead == AuditAll(k, EMPTY, history[..a.proto.hi]).lastHash
  }

  predicate AllAnchored(k: Kernel, history: seq<Fact>, anchors: seq<AuditAnchor>) {
    forall i | 0 <= i < |anchors| :: Anchored(k, history, anchors[i])
  }

  /** The builder continues the anchors, which are valid and sound. */
  ghost predicate AnchorsInv(c: Crypto, keys: KeyTable, history: seq<Fact>, v: AuditorView) {
    && v.builder.Some?
    && InStep(v.builder.value, v.anchors) && KeysMatch(c, keys, v.builder.value)
    && ChainValid(c, v.anchors, keys)
    && AllAnchored(c.kernel, history, v.anchors)
  }

  /** The anchor log holds exactly the anchors. */
  predicate LogInv(s: Sys) {
    s.file == LogFile(Written(s.auditor.anchors), false)
  }

  ghost predicate AnchorInv(c: Crypto, keys: KeyTable, s: Sys) {
    AnchorsInv(c, keys, s.history, s.auditor) && LogInv(s)
  }

  lemma {:induction false} ReadBack(anchors: seq<AuditAnchor>)
    ensures ReadableLines(Written(anchors)) == anchors
  {
    if anchors != [] {
      var n := |anchors| - 1;
      assert Written(anchors)[..n] == Written(anchors[..n]);
      ReadBack(anchors[..n]);
      assert anchors == anchors[..n] + [anchors[n]];
    }
  }

  lemma WrittenSnoc(anchors: seq<AuditAnchor>, a: AuditAnchor)
    ensures Written(anchors + [a]) == Written(anchors) + [Some(a)]
    ensures Appended(LogFile(Written(anchors), false), a) == LogFile(Written(anchors + [a]), false)
  {
  }

  lemma RebuiltInStep(c: Crypto, keys: KeyTable, cfg: Config, anchors: seq<AuditAnchor>)
    requires ChainValid(c, anchors, keys) && Knows(c, keys, cfg)
    ensures InStep(Rebuilt(cfg, anchors).builder.value, anchors)
    ensures KeysMatch(c, keys, Rebuilt(cfg, anchors).builder.value)
  {
    if anchors != [] {
      assert Continues(c, anchors, keys, |anchors| - 1);
    }
  }

  lemma CatchUp(k: Kernel, history: seq<Fact>, n: nat)
    requires n <= |history|
    ensures AuditAll(k, AuditAll(k, EMPTY, history[..n]), history[n..]) == AuditAll(k, EMPTY, history)
    ensures |AuditAll(k, EMPTY, history).entries| == |history|
  {
    AuditAllConcat(k, EMPTY, history[..n], history[n..]);
    assert history == history[..n] + history[n..];
    AuditAllLengths(k, EMPTY, history);
  }

  /** Auditing catches up with the log. */
  lemma AuditedIsAll(c: Crypto, s: Sys)
    requires CoreInv(c.kernel, s)
    ensures |Audited(c, s.auditor, s.history).core.entries| == |s.history|
    ensures Audited(c, s.auditor, s.history).core == AuditAll(c.kernel, EMPTY, s.history)
  {
    CatchUp(c.kernel, s.history, |s.auditor.core.entries|);
  }

  lemma CoreStep(c: Crypto, s: Sys, op: Op)
    requires CoreInv(c.kernel, s)
    ensures CoreInv(c.kernel, Step(c, s, op))
    ensures op.Audit? ==> |Step(c, s, op).auditor.core.entries| == |s.history|
  {
    var n := |s.auditor.core.entries|;
    match op {
      case Grow(f) =>
        assert (s.history + [f])[..n] == s.history[..n];
      case Audit =>
        AuditedIsAll(c, s);
        assert s.history[..|s.history|] == s.history;
      case SealNow =>
      case Restart(_) =>
    }
  }

  /** Sealing the audited prefix keeps the anchors sound. */
  lemma SealStep(c: Crypto, keys: KeyTable, s: Sys)
    requires SignatureCorrect(c) && CoreInv(c.kernel, s) && AnchorsInv(c, keys, s.history, s.auditor)
    ensures AnchorsInv(c, keys, s.history, AfterSealing(c, s.auditor))
  {
    var v := s.auditor;
    SealKeepsChain(c, keys, v.anchors, v.builder.value, |v.core.entries|, v.core.lastHash);
    assert Anchored(c.kernel, s.history, SealNext(c, v));
  }

  /** Short of a restart, the anchors stay sound whatever has become of the log file. */
  lemma AnchorsStep(c: Crypto, keys: KeyTable, s: Sys, op: Op)
    requires SignatureCorrect(c) && CoreInv(c.kernel, s) && AnchorsInv(c, keys, s.history, s.auditor) && !op.Restart?
    ensures AnchorsInv(c, keys, Step(c, s, op).history, Step(c, s, op).auditor)
  {
    var v := s.auditor;
    match op {
      case Grow(f) =>
        forall i | 0 <= i < |v.anchors|
          ensures Anchored(c.kernel, s.history + [f], v.anchors[i])
        {
          assert Anchored(c.kernel, s.history, v.anchors[i]);
          assert (s.history + [f])[..v.anchors[i].proto.hi] == s.history[..v.anchors[i].proto.hi];
        }
      case Audit =>
        if |v.core.entries| < |s.history| {
          AuditedIsAll(c, s);
          assert s.history[..|s.history|] == s.history;
          if SealDue(Audited(c, v, s.history)) {
            SealStep(c, keys, s.(auditor := Audited(c, v, s.history)));
          }
        }
      case SealNow =>
        SealStep(c, keys, s);
    }
  }

  /** The anchors only grow, short of a restart, and by at most one per operation, which is the one logged. */
  lemma SealedByStep(c: Crypto, s: Sys, op: Op)
    requires !op.Restart?
    ensures var v, t := s.auditor, Step(c, s, op);
            && v.anchors <= t.auditor.anchors && |t.auditor.anchors| <= |v.anchors| + 1
            && t.file == AppendedAll(s.file, t.auditor.anchors[|v.anchors|..])
  {
    var v := s.auditor;
    match op {
      case Grow(_) =>
      case Audit =>
        if |v.core.entries| < |s.history| && SealDue(Audited(c, v, s.history)) {
          assert (v.anchors + [SealNext(c, Audited(c, v, s.history))])[..|v.anchors|] == v.anchors;
        }
      case SealNow =>
        if v.builder.Some? {
          assert AfterSealing(c, v).anchors[|v.anchors|..] == [SealNext(c, v)];
          AppendedOne(s.file, SealNext(c, v));
        }
    }
  }

  lemma LogStep(c: Crypto, s: Sys, op: Op)
    requires LogInv(s) && !op.Restart?
    ensures LogInv(Step(c, s, op))
  {
    var v, t := s.auditor, Step(c, s, op);
    SealedByStep(c, s, op);
    if |t.auditor.anchors| > |v.anchors| {
      var a := t.auditor.anchors[|v.anchors|];
      assert t.auditor.anchors[|v.anchors|..] == [a] && t.auditor.anchors == v.anchors + [a];
      AppendedOne(s.file, a);
      WrittenSnoc(v.anchors, a);
    }
  }

  lemma AnchorStep(c: Crypto, keys: KeyTable, s: Sys, op: Op)
    requires SignatureCorrect(c) && CoreInv(c.kernel, s) && AnchorInv(c, keys, s)
    requires op.Restart? ==> Knows(c, keys, op.cfg)
    ensures AnchorInv(c, keys, Step(c, s, op))
  {
    if op.Restart? {
      ReadBack(s.auditor.anchors);
      RebuiltInStep(c, keys, op.cfg, s.auditor.anchors);
    } else {
      AnchorsStep(c, keys, s, op);
      LogStep(c, s, op);
    }
  }

  /** Every state of every run: the core is the audited prefix, the builder continues the anchor
      chain, the anchor log holds exactly the anchors, and they are valid and sound. */
  lemma {:induction false} EveryRun(c: Crypto, keys: KeyTable, cfg: Config, ops: seq<Op>)
    requires SignatureCorrect(c) && Knows(c, keys, cfg) && SignersKnown(c, keys, ops)
    ensures CoreInv(c.kernel, Run(c, Start(cfg), ops)) && AnchorInv(c, keys, Run(c, Start(cfg), ops))
  {
    if ops != [] {
      var front, last := ops[..|ops| - 1], ops[|ops| - 1];
      assert forall i | 0 <= i < |front| :: front[i] == ops[i];
      EveryRun(c, keys, cfg, front);
      CoreStep(c, Run(c, Start(cfg), front), last);
      AnchorStep(c, keys, Run(c, Start(cfg), front), last);
    }
  }

  // ---------------------------------------------------------------- what the checks say in every run

  /** Every anchor covers no more than what has been audited. */
  predicate Replayed(v: AuditorView) {
    forall i | 0 <= i < |v.anchors| :: v.anchors[i].proto.hi <= |v.core.entries|
  }

  /** `verify_anchors` accepts a sound state exactly when the entries reach up to every anchor. */
  lemma FastOkIffReplayed(c: Crypto, keys: KeyTable, s: Sys)
    requires CoreInv(c.kernel, s) && AnchorsInv(c, keys, s.history, s.auditor)
    ensures FastOk(c, s.auditor.core.entries, s.auditor.anchors, keys) <==> Replayed(s.auditor)
  {
    var v := s.auditor;
    var n := |v.core.entries|;
    forall i | 0 <= i < |v.anchors|
      ensures HeadMatches(c.kernel, v.core.entries, v.anchors[i]) <==> v.anchors[i].proto.hi <= n
    {
      var hi := v.anchors[i].proto.hi;
      assert Anchored(c.kernel, s.history, v.anchors[i]);
      if hi <= n {
        HeadOfPrefix(c.kernel, s.history[..n], hi);
        assert s.history[..n][..hi] == s.history[..hi];
      }
    }
  }

  /** In every state of every run: `verify` accepts; `verify_deep` accepts the audited prefix exactly when
      all of it can be hashed, and then the running head is its chain hash; `verify_anchors` accepts exactly
      when the audit has caught up with the anchors, which it has right after `audit_new`. */
  lemma {:induction false} ChecksInEveryRun(c: Crypto, keys: KeyTable, cfg: Config, ops: seq<Op>)
    requires SignatureCorrect(c) && Knows(c, keys, cfg) && SignersKnown(c, keys, ops)
    ensures var s := Run(c, Start(cfg), ops);
            var v := s.auditor;
            && |v.core.entries| <= |s.history|
            && LinksOk(c.kernel, v.core.entries)
            && var audited := s.history[..|v.core.entries|];
               && (DeepOk(c.kernel, v.core.entries, audited) <==> Hashable(c.kernel, audited))
               && (Hashable(c.kernel, audited) ==> ChainHash(c.kernel, audited) == Ok(v.core.lastHash))
               && (FastOk(c, v.core.entries, v.anchors, keys) <==> Replayed(v))
               && (ops != [] && ops[|ops| - 1].Audit? ==> Replayed(v) && audited == s.history)
  {
    var s := Run(c, Start(cfg), ops);
    EveryRun(c, keys, cfg, ops);
    var audited := s.history[..|s.auditor.core.entries|];
    AuditedLinksOk(c.kernel, audited);
    AuditedDeepOk(c.kernel, audited);
    RunningHeadIsChainHash(c.kernel, audited);
    ChainHashIsFold(c.kernel, audited);
    FastOkIffReplayed(c, keys, s);
    if ops != [] && ops[|ops| - 1].Audit? {
      AuditCatchesUp(c, keys, cfg, ops);
    }
  }

  lemma AuditCatchesUp(c: Crypto, keys: KeyTable, cfg: Config, ops: seq<Op>)
    requires SignatureCorrect(c) && Knows(c, keys, cfg) && SignersKnown(c, keys, ops)
    requires ops != [] && ops[|ops| - 1].Audit?
    ensures var s := Run(c, Start(cfg), ops);
            |s.auditor.core.entries| == |s.history| && Replayed(s.auditor)
  {
    var front := ops[..|ops| - 1];
    assert forall i | 0 <= i < |front| :: front[i] == ops[i];
    EveryRun(c, keys, cfg, front);
    EveryRun(c, keys, cfg, ops);
    CoreStep(c, Run(c, Start(cfg), front), Audit);
    var s := Run(c, Start(cfg), ops);
    forall i | 0 <= i < |s.auditor.anchors|
      ensures s.auditor.anchors[i].proto.hi <= |s.history|
    {
      assert Anchored(c.kernel, s.history, s.auditor.anchors[i]);
    }
  }

  // ---------------------------------------------------------------- who sealed what, and when

  /** The configuration of the last restart among the first `n` operations, or the one the run began with. */
  function ConfigAt(cfg: Config, ops: seq<Op>, n: nat): Config
    requires n <= |ops|
  {
    if n == 0 then cfg else if ops[n - 1].Restart? then ops[n - 1].cfg else ConfigAt(cfg, ops, n - 1)
  }

  lemma {:induction false} ConfigOfPrefix(cfg: Config, ops: seq<Op>, m: nat, n: nat)
    requires n <= m <= |ops|
    ensures ConfigAt(cfg, ops[..m], n) == ConfigAt(cfg, ops, n)
  {
    if n > 0 {
      ConfigOfPrefix(cfg, ops, m, n - 1);
    }
  }

  /** The anchors a state holds are logged, its builder is that of the configuration, and it continues where the
      last anchor ended. */
  predicate UnderConfig(cfg: Config, s: Sys) {
    && LogInv(s) && s.auditor.builder.Some? && s.auditor.interval == cfg.interval
    && SignerOf(s.auditor.builder.value) == Signer(cfg.seed, cfg.keyId, cfg.engineId, cfg.sessionId)
    && s.auditor.builder.value.nextLo == NextLo(s.auditor.anchors, |s.auditor.anchors|)
  }

  /** An anchor over the entries and head of `v`, from where the anchors before ended, in the name of `cfg`. */
  predicate SealedUnder(c: Crypto, cfg: Config, lo: nat, core: Core, a: AuditAnchor) {
    && a.proto.lo == lo && a.proto.hi == |core.entries| && a.proto.chainHead == core.lastHash && a.proto.logicalTime == 0
    && CarriesSigner(c, a, Signer(cfg.seed, cfg.keyId, cfg.engineId, cfg.sessionId))
  }

  /** Whether an operation is to seal: always on demand, and by an audit that brings the facts not covered to a
      positive interval. */
  predicate DueAt(cfg: Config, s: Sys, op: Op) {
    op.SealNow?
    || (op.Audit? && |s.auditor.core.entries| < |s.history| && cfg.interval > 0
        && |s.history| - NextLo(s.auditor.anchors, |s.auditor.anchors|) >= cfg.interval)
  }

  lemma ConfigStep(c: Crypto, cfg: Config, s: Sys, op: Op)
    requires UnderConfig(cfg, s) && CoreInv(c.kernel, s)
    ensures UnderConfig(if op.Restart? then op.cfg else cfg, Step(c, s, op))
    ensures var t := Step(c, s, op);
            && s.auditor.anchors <= t.auditor.anchors
            && (if DueAt(cfg, s, op) then
                  && |t.auditor.anchors| == |s.auditor.anchors| + 1
                  && SealedUnder(c, cfg, NextLo(s.auditor.anchors, |s.auditor.anchors|), t.auditor.core,
                                 t.auditor.anchors[|s.auditor.anchors|])
                else t.auditor.anchors == s.auditor.anchors)
  {
    if op.Restart? {
      ReadBack(s.auditor.anchors);
    } else {
      LogStep(c, s, op);
      if op.Audit? {
        AuditedIsAll(c, s);
      }
    }
  }

  lemma {:induction false} ConfigInForce(c: Crypto, cfg: Config, ops: seq<Op>)
    ensures CoreInv(c.kernel, Run(c, Start(cfg), ops))
    ensures UnderConfig(ConfigAt(cfg, ops, |ops|), Run(c, Start(cfg), ops))
  {
    if ops != [] {
      var n := |ops| - 1;
      ConfigInForce(c, cfg, ops[..n]);
      ConfigOfPrefix(cfg, ops, n, n);
      var s := Run(c, Start(cfg), ops[..n]);
      CoreStep(c, s, ops[n]);
      ConfigStep(c, ConfigAt(cfg, ops, n), s, ops[n]);
    }
  }

  /** Each operation of each run seals exactly when it is due under the configuration in force, and then one anchor:
      over what has been audited, from where the last one ended, in that configuration's name. No operation, and no
      restart, changes or drops the anchors before. */
  lemma {:induction false} SealsWhenDue(c: Crypto, cfg: Config, ops: seq<Op>, n: nat)
    requires n < |ops|
    ensures var s, t := Run(c, Start(cfg), ops[..n]), Run(c, Start(cfg), ops[..n + 1]);
            var own := ConfigAt(cfg, ops, n);
            && s.auditor.anchors <= t.auditor.anchors
            && (if DueAt(own, s, ops[n]) then
                  && |t.auditor.anchors| == |s.auditor.anchors| + 1
                  && SealedUnder(c, own, NextLo(s.auditor.anchors, |s.auditor.anchors|), t.auditor.core,
                                 t.auditor.anchors[|s.auditor.anchors|])
                else t.auditor.anchors == s.auditor.anchors)
  {
    ConfigInForce(c, cfg, ops[..n]);
    ConfigOfPrefix(cfg, ops, n, n);
    assert ops[..n + 1][..n] == ops[..n];
    ConfigStep(c, ConfigAt(cfg, ops, n), Run(c, Start(cfg), ops[..n]), ops[n]);
  }

  /** So every anchor of every run was sealed by some operation, in the name of the configuration then in force. */
  lemma {:induction false} AnchorsCarryTheirConfig(c: Crypto, cfg: Config, ops: seq<Op>, i: nat) returns (n: nat)
    requires i < |Run(c, Start(cfg), ops).auditor.anchors|
    ensures n < |ops| && |Run(c, Start(cfg), ops[..n]).auditor.anchors| == i
    ensures DueAt(ConfigAt(cfg, ops, n), Run(c, Start(cfg), ops[..n]), ops[n])
    ensures var s, t := Run(c, Start(cfg), ops[..n]), Run(c, Start(cfg), ops[..n + 1]);
            SealedUnder(c, ConfigAt(cfg, ops, n), NextLo(s.auditor.anchors, i), t.auditor.core,
                        Run(c, Start(cfg), ops).auditor.anchors[i])
    decreases |ops|
  {
    var m := |ops| - 1;
    assert ops[..m + 1] == ops;
    SealsWhenDue(c, cfg, ops, m);
    if i < |Run(c, Start(cfg), ops[..m]).auditor.anchors| {
      n := AnchorsCarryTheirConfig(c, cfg, ops[..m], i);
      assert ops[..m][..n] == ops[..n] && ops[..m][..n + 1] == ops[..n + 1];
      ConfigOfPrefix(cfg, ops, m, n);
    } else {
      n := m;
    }
  }
}
