/** What restarts, early seals and a damaged anchor log do to a run of the auditor. */
module Restarts {
  import opened Base
  import opened Facts
  import opened HashChain
  import opened Anchors
  import opened Auditor
  import opened AuditRuns

  // ---------------------------------------------------------------- seals that run backwards

  /** Operation `i` seals on demand before the entries reach the last anchor, as happens between
      a restart and the replay of the log. */
  predicate Premature(c: Crypto, cfg: Config, ops: seq<Op>, i: nat)
    requires i < |ops|
  {
    var v := Run(c, Start(cfg), ops[..i]).auditor;
    ops[i].SealNow? && v.builder.Some? && |v.core.entries| < v.builder.value.nextLo
  }

  predicate NoPrematureSeal(c: Crypto, cfg: Config, ops: seq<Op>) {
    forall i | 0 <= i < |ops| :: !Premature(c, cfg, ops, i)
  }

  lemma PrematureSnoc(c: Crypto, cfg: Config, front: seq<Op>, last: Op)
    ensures NoPrematureSeal(c, cfg, front + [last]) <==>
            NoPrematureSeal(c, cfg, front) && !Premature(c, cfg, front + [last], |front|)
  {
    var ops := front + [last];
    forall i | 0 <= i < |front|
      ensures Premature(c, cfg, ops, i) <==> Premature(c, cfg, front, i)
    {
      assert ops[..i] == front[..i] && ops[i] == front[i];
    }
  }

  /** The anchor ranges stay ordered exactly while no seal is premature; so the independent verifier
      accepts the anchors of exactly those runs, while the auditor's own chain check accepts every run. */
  lemma {:induction false} OrderedIffNoPrematureSeal(c: Crypto, keys: KeyTable, cfg: Config, ops: seq<Op>)
    requires SignatureCorrect(c) && Knows(c, keys, cfg) && SignersKnown(c, keys, ops)
    ensures Ordered(Run(c, Start(cfg), ops).auditor.anchors) <==> NoPrematureSeal(c, cfg, ops)
    ensures ChainValid(c, Run(c, Start(cfg), ops).auditor.anchors, keys)
  {
    EveryRun(c, keys, cfg, ops);
    if ops != [] {
      var front, last := ops[..|ops| - 1], ops[|ops| - 1];
      assert ops == front + [last];
      assert forall i | 0 <= i < |front| :: front[i] == ops[i];
      OrderedIffNoPrematureSeal(c, keys, cfg, front);
      EveryRun(c, keys, cfg, front);
      PrematureSnoc(c, cfg, front, last);
      OrderedStep(c, keys, Run(c, Start(cfg), front), last);
    }
  }

  lemma OrderedStep(c: Crypto, keys: KeyTable, s: Sys, op: Op)
    requires AnchorInv(c, keys, s)
    ensures Ordered(Step(c, s, op).auditor.anchors) <==>
            Ordered(s.auditor.anchors)
            && !(op.SealNow? && |s.auditor.core.entries| < s.auditor.builder.value.nextLo)
  {
    var v := s.auditor;
    match op {
      case Grow(_) =>
      case Audit =>
        if |v.core.entries| < |s.history| {
          var w := Audited(c, v, s.history);
          OrderedSnoc(v.anchors, SealNext(c, w));
        }
      case SealNow =>
        OrderedSnoc(v.anchors, SealNext(c, v));
      case Restart(_) =>
        ReadBack(v.anchors);
    }
  }

  /** The state of a restart after one fact was audited, and sealed because the interval is one. */
  lemma RestartAfterFirstSeal(c: Crypto, cfg: Config, f: Fact) returns (a: AuditAnchor)
    requires cfg.interval == 1
    ensures Run(c, Start(cfg), [Grow(f), Audit, Restart(cfg)]) == Sys([f], LogFile([Some(a)], false), Rebuilt(cfg, [a]))
    ensures a.proto.hi == 1
  {
    var grown := Step(c, Start(cfg), Grow(f));
    assert grown.history == [f] && CoreInv(c.kernel, grown);
    AuditedIsAll(c, grown);
    LogStep(c, grown, Audit);
    var s := Step(c, grown, Audit);
    a := s.auditor.anchors[0];
    assert s.auditor.anchors == [a];
    ReadBack([a]);
    RunOfThree(c, Start(cfg), Grow(f), Audit, Restart(cfg));
  }

  lemma RunOfThree(c: Crypto, s: Sys, x: Op, y: Op, z: Op)
    ensures Run(c, s, [x, y, z]) == Step(c, Step(c, Step(c, s, x), y), z)
  {
    RunSnoc(c, s, [], x);
    RunSnoc(c, s, [x], y);
    RunSnoc(c, s, [x, y], z);
    assert [] + [x] == [x] && [x] + [y] == [x, y] && [x, y] + [z] == [x, y, z];
  }

  /** The gap between a restart and the replay is reached, with an interval of one: audit a fact and restart,
      and `verify_anchors` rejects. */
  lemma RestartBreaksVerifyAnchors(c: Crypto, keys: KeyTable, cfg: Config, f: Fact)
    requires SignatureCorrect(c) && Knows(c, keys, cfg) && cfg.interval == 1
    ensures var v := Run(c, Start(cfg), [Grow(f), Audit, Restart(cfg)]).auditor;
            !Replayed(v) && !FastOk(c, v.core.entries, v.anchors, keys)
  {
    var ops := [Grow(f), Audit, Restart(cfg)];
    var a := RestartAfterFirstSeal(c, cfg, f);
    var v := Run(c, Start(cfg), ops).auditor;
    assert v.core.entries == [] && v.anchors[0] == a;
    EveryRun(c, keys, cfg, ops);
    FastOkIffReplayed(c, keys, Run(c, Start(cfg), ops));
  }

  /** Sealing in that gap makes the ranges run backwards, although the auditor's own check accepts them. */
  lemma SealInGapRunsBackwards(c: Crypto, keys: KeyTable, cfg: Config, f: Fact)
    requires SignatureCorrect(c) && Knows(c, keys, cfg) && cfg.interval == 1
    ensures var ops := [Grow(f), Audit, Restart(cfg)] + [SealNow];
            var v := Run(c, Start(cfg), ops).auditor;
            !NoPrematureSeal(c, cfg, ops) && !Ordered(v.anchors) && ChainValid(c, v.anchors, keys)
  {
    SealInGapIsPremature(c, cfg, f);
    OrderedIffNoPrematureSeal(c, keys, cfg, [Grow(f), Audit, Restart(cfg)] + [SealNow]);
  }

  lemma SealInGapIsPremature(c: Crypto, cfg: Config, f: Fact)
    requires cfg.interval == 1
    ensures !NoPrematureSeal(c, cfg, [Grow(f), Audit, Restart(cfg)] + [SealNow])
  {
    var gap := [Grow(f), Audit, Restart(cfg)];
    var a := RestartAfterFirstSeal(c, cfg, f);
    var v := Run(c, Start(cfg), gap).auditor;
    assert v == Rebuilt(cfg, [a]) && v.builder.value.nextLo == 1;
    PrematureSnoc(c, cfg, gap, SealNow);
    assert (gap + [SealNow])[..|gap|] == gap;
    assert Premature(c, cfg, gap + [SealNow], |gap|);
  }

  // ---------------------------------------------------------------- restart transparency

  /** After the first `n` operations a restart still waits for its first audit. */
  predicate Recovering(ops: seq<Op>, n: nat)
    requires n <= |ops|
  {
    n > 0 && (ops[n - 1].Restart? || (!ops[n - 1].Audit? && Recovering(ops, n - 1)))
  }

  /** Every restart keeps the configuration, and nothing is sealed on demand before the log has been audited
      again. Facts may arrive and further restarts may happen in between. */
  predicate Replays(cfg: Config, ops: seq<Op>) {
    forall i | 0 <= i < |ops| ::
      (ops[i].Restart? ==> ops[i].cfg == cfg) && (ops[i].SealNow? ==> !Recovering(ops, i))
  }

  /** The same operations without the restarts. */
  function Uninterrupted(ops: seq<Op>): seq<Op> {
    if ops == [] then []
    else
      var front := Uninterrupted(ops[..|ops| - 1]);
      if ops[|ops| - 1].Restart? then front else front + [ops[|ops| - 1]]
  }

  /** The builder is the one a restart would rebuild, and fewer facts than the interval are uncovered. */
  predicate Steady(k: Kernel, cfg: Config, s: Sys) {
    var v := s.auditor;
    && CoreInv(k, s)
    && LogInv(s)
    && v == Rebuilt(cfg, v.anchors).(core := v.core)
    && (cfg.interval > 0 ==> |v.core.entries| - v.builder.value.nextLo < cfg.interval)
  }

  /** Restarting loses nothing but the entries, which the next audit rebuilds. */
  lemma RestartForgetsEntries(c: Crypto, cfg: Config, s: Sys)
    requires Steady(c.kernel, cfg, s)
    ensures Step(c, s, Restart(cfg)) == s.(auditor := s.auditor.(core := EMPTY))
  {
    ReadBack(s.auditor.anchors);
  }

  lemma RebuiltAfterSeal(c: Crypto, cfg: Config, v: AuditorView)
    requires v == Rebuilt(cfg, v.anchors).(core := v.core)
    ensures AfterSealing(c, v) == Rebuilt(cfg, AfterSealing(c, v).anchors).(core := v.core)
    ensures AfterSealing(c, v).builder.value.nextLo == |v.core.entries|
  {
  }

  lemma SteadyStep(c: Crypto, cfg: Config, s: Sys, op: Op)
    requires Steady(c.kernel, cfg, s) && !op.Restart?
    ensures Steady(c.kernel, cfg, Step(c, s, op))
  {
    CoreStep(c, s, op);
    LogStep(c, s, op);
    var v := s.auditor;
    match op {
      case Grow(_) =>
      case Audit =>
        if |v.core.entries| < |s.history| {
          RebuiltAfterSeal(c, cfg, Audited(c, v, s.history));
        }
      case SealNow =>
        RebuiltAfterSeal(c, cfg, v);
    }
  }

  /** Restarting and replaying is the same as just auditing. */
  lemma RestartThenAudit(c: Crypto, cfg: Config, s: Sys)
    requires Steady(c.kernel, cfg, s)
    ensures Step(c, Step(c, s, Restart(cfg)), Audit) == Step(c, s, Audit)
  {
    var v := s.auditor;
    RestartForgetsEntries(c, cfg, s);
    var t := Step(c, s, Restart(cfg));
    assert CoreInv(c.kernel, t);
    AuditedIsAll(c, s);
    AuditedIsAll(c, t);
    assert |v.core.entries| == |s.history| ==> s.history[..|v.core.entries|] == s.history;
    assert Audited(c, t.auditor, s.history) == Audited(c, v, s.history);
    if |v.core.entries| == |s.history| {
      assert Audited(c, v, s.history) == v by {
        assert s.history[|v.core.entries|..] == [];
      }
      assert !SealDue(v);
    }
  }

  /** The state of a run is that of the run that never restarted, restarted once more if the last restart
      still waits for its audit. */
  function Transparent(c: Crypto, cfg: Config, ops: seq<Op>): Sys {
    var u := Run(c, Start(cfg), Uninterrupted(ops));
    if Recovering(ops, |ops|) then Step(c, u, Restart(cfg)) else u
  }

  lemma TransparentStep(c: Crypto, cfg: Config, front: seq<Op>, last: Op)
    requires Replays(cfg, front + [last])
    requires Steady(c.kernel, cfg, Run(c, Start(cfg), Uninterrupted(front)))
    ensures Step(c, Transparent(c, cfg, front), last) == Transparent(c, cfg, front + [last])
    ensures Steady(c.kernel, cfg, Run(c, Start(cfg), Uninterrupted(front + [last])))
  {
    var ops, n := front + [last], |front|;
    var u := Run(c, Start(cfg), Uninterrupted(front));
    assert ops[..n] == front && ops[n] == last;
    RecoveringPrefix(front, last, n);
    if last.Restart? {
      RestartForgetsEntries(c, cfg, u);
    } else {
      SteadyStep(c, cfg, u, last);
      RunSnoc(c, Start(cfg), Uninterrupted(front), last);
      if Recovering(front, n) {
        RestartForgetsEntries(c, cfg, u);
        RestartForgetsEntries(c, cfg, Step(c, u, last));
        RestartThenAudit(c, cfg, u);
      }
    }
  }

  lemma {:induction false} RecoveringPrefix(front: seq<Op>, last: Op, n: nat)
    requires n <= |front|
    ensures Recovering(front + [last], n) == Recovering(front, n)
  {
    if n > 0 {
      RecoveringPrefix(front, last, n - 1);
    }
  }

  lemma ReplaysFront(cfg: Config, front: seq<Op>, last: Op)
    requires Replays(cfg, front + [last])
    ensures Replays(cfg, front)
  {
    var ops := front + [last];
    forall i | 0 <= i < |front|
      ensures (front[i].Restart? ==> front[i].cfg == cfg) && (front[i].SealNow? ==> !Recovering(front, i))
    {
      assert ops[i] == front[i];
      RecoveringPrefix(front, last, i);
    }
  }

  /** A run whose restarts replay the log is in exactly the state of the run that never restarted: the same
      entries, logical times, index, head, anchors, builder and anchor log. While a restart waits for its
      audit only the entries are missing. */
  lemma {:induction false} RestartTransparency(c: Crypto, cfg: Config, ops: seq<Op>)
    requires Replays(cfg, ops)
    ensures Steady(c.kernel, cfg, Run(c, Start(cfg), Uninterrupted(ops)))
    ensures var s, u := Run(c, Start(cfg), ops), Run(c, Start(cfg), Uninterrupted(ops));
            s == if Recovering(ops, |ops|) then u.(auditor := u.auditor.(core := EMPTY)) else u
  {
    IsTransparent(c, cfg, ops);
    RestartForgetsEntries(c, cfg, Run(c, Start(cfg), Uninterrupted(ops)));
  }

  lemma {:induction false} IsTransparent(c: Crypto, cfg: Config, ops: seq<Op>)
    requires Replays(cfg, ops)
    ensures Run(c, Start(cfg), ops) == Transparent(c, cfg, ops)
    ensures Steady(c.kernel, cfg, Run(c, Start(cfg), Uninterrupted(ops)))
  {
    if ops != [] {
      var front, last := ops[..|ops| - 1], ops[|ops| - 1];
      assert ops == front + [last];
      ReplaysFront(cfg, front, last);
      IsTransparent(c, cfg, front);
      TransparentStep(c, cfg, front, last);
    }
  }

  lemma RunSnoc(c: Crypto, s: Sys, ops: seq<Op>, op: Op)
    ensures Run(c, s, ops + [op]) == Step(c, Run(c, s, ops), op)
  {
    assert (ops + [op])[..|ops|] == ops;
  }

  predicate RestartFree(ops: seq<Op>) {
    forall i | 0 <= i < |ops| :: !ops[i].Restart?
  }

  lemma {:induction false} UninterruptedIsRestartFree(ops: seq<Op>)
    ensures RestartFree(Uninterrupted(ops))
  {
    if ops != [] {
      UninterruptedIsRestartFree(ops[..|ops| - 1]);
    }
  }

  /** Without restarts the audit never falls behind the anchors, whose ranges ascend. */
  lemma {:induction false} RestartFreeIsReplayed(c: Crypto, cfg: Config, ops: seq<Op>)
    requires RestartFree(ops)
    ensures var v := Run(c, Start(cfg), ops).auditor;
            && Steady(c.kernel, cfg, Run(c, Start(cfg), ops))
            && Replayed(v) && Ordered(v.anchors) && v.builder.value.nextLo <= |v.core.entries|
  {
    if ops != [] {
      var front, last := ops[..|ops| - 1], ops[|ops| - 1];
      assert RestartFree(front);
      RestartFreeIsReplayed(c, cfg, front);
      var s := Run(c, Start(cfg), front);
      SteadyStep(c, cfg, s, last);
      ReplayedStep(c, s, last);
    }
  }

  lemma ReplayedStep(c: Crypto, s: Sys, op: Op)
    requires CoreInv(c.kernel, s) && !op.Restart? && s.auditor.builder.Some?
    requires var v := s.auditor; Replayed(v) && Ordered(v.anchors) && v.builder.value.nextLo <= |v.core.entries|
    ensures var v := Step(c, s, op).auditor;
            v.builder.Some? && Replayed(v) && Ordered(v.anchors) && v.builder.value.nextLo <= |v.core.entries|
  {
    var v := s.auditor;
    match op {
      case Grow(_) =>
      case Audit =>
        if |v.core.entries| < |s.history| {
          AuditedIsAll(c, s);
          ReplayedGrows(v, Audited(c, v, s.history));
          ReplayedSeal(c, Audited(c, v, s.history));
        }
      case SealNow =>
        ReplayedSeal(c, v);
    }
  }

  lemma ReplayedGrows(v: AuditorView, w: AuditorView)
    requires Replayed(v) && w == v.(core := w.core) && |v.core.entries| <= |w.core.entries|
    ensures Replayed(w)
  {
  }

  lemma ReplayedSeal(c: Crypto, v: AuditorView)
    requires v.builder.Some? && Replayed(v) && Ordered(v.anchors) && v.builder.value.nextLo <= |v.core.entries|
    ensures Replayed(AfterSealing(c, v)) && Ordered(AfterSealing(c, v).anchors)
    ensures AfterSealing(c, v).builder.value.nextLo == |v.core.entries|
  {
    OrderedSnoc(v.anchors, SealNext(c, v));
  }

  /** In a run whose restarts replay the log every check passes in every state in which no restart waits for
      its audit: the links, both anchor chain verifiers, the anchor heads, and the deep check whenever the
      audited facts can be hashed. */
  lemma ReplayedRunsPassEveryCheck(c: Crypto, keys: KeyTable, cfg: Config, ops: seq<Op>)
    requires SignatureCorrect(c) && Knows(c, keys, cfg) && Replays(cfg, ops) && !Recovering(ops, |ops|)
    ensures var s := Run(c, Start(cfg), ops);
            var v := s.auditor;
            && LinksOk(c.kernel, v.core.entries)
            && FastOk(c, v.core.entries, v.anchors, keys)
            && ChainValid(c, v.anchors, keys) && Ordered(v.anchors)
            && |v.core.entries| <= |s.history|
            && var audited := s.history[..|v.core.entries|];
               Hashable(c.kernel, audited) ==> DeepOk(c.kernel, v.core.entries, audited) && Bound(c.kernel, audited, v.anchors)
  {
    RestartTransparency(c, cfg, ops);
    UninterruptedIsRestartFree(ops);
    RestartFreeIsReplayed(c, cfg, Uninterrupted(ops));
    ChecksInEveryRun(c, keys, cfg, ops);
    var s := Run(c, Start(cfg), ops);
    var audited := s.history[..|s.auditor.core.entries|];
    if Hashable(c.kernel, audited) {
      FastRefinesSimple(c, s.auditor.core.entries, audited, s.auditor.anchors, keys);
    }
  }

  // ---------------------------------------------------------------- a damaged anchor log

  /** `damaged` is `lines` with some lines spoilt. */
  predicate DamagedFrom(damaged: seq<LogLine>, lines: seq<LogLine>) {
    |damaged| == |lines| && forall i | 0 <= i < |lines| :: damaged[i].None? || damaged[i] == lines[i]
  }

  /** What can still be read is a subsequence of the anchors. */
  lemma {:induction false} ReadableIsPicked(damaged: seq<LogLine>, anchors: seq<AuditAnchor>) returns (picks: seq<nat>)
    requires DamagedFrom(damaged, Written(anchors))
    ensures Picks(anchors, picks) && Picked(anchors, picks) == ReadableLines(damaged)
    decreases |anchors|
  {
    picks := [];
    if anchors != [] {
      var n := |anchors| - 1;
      assert DamagedFrom(damaged[..n], Written(anchors[..n])) by {
        assert Written(anchors)[..n] == Written(anchors[..n]);
        assert forall i | 0 <= i < n :: damaged[..n][i] == damaged[i] && Written(anchors)[i] == Written(anchors[..n])[i];
      }
      var front := ReadableIsPicked(damaged[..n], anchors[..n]);
      assert Picked(anchors[..n], front) == Picked(anchors, front);
      picks := if damaged[n].Some? then front + [n] else front;
      if damaged[n].Some? {
        assert damaged[n] == Written(anchors)[n];
        assert Picked(anchors, picks) == Picked(anchors, front) + [anchors[n]];
      }
    }
  }

  /** Restarting over a log from which some of the anchors can be read, and replaying the facts, passes
      `verify_anchors` exactly when what can be read is a prefix. */
  lemma RestoredIffPrefix(
      c: Crypto, keys: KeyTable, restart: Config, s: Sys, full: seq<AuditAnchor>, picks: seq<nat>)
    requires SignatureCorrect(c) && Knows(c, keys, restart)
    requires ChainValid(c, full, keys) && AllAnchored(c.kernel, s.history, full)
    requires Picks(full, picks) && Picked(full, picks) == ReadableLines(s.file.lines)
    ensures FastAfterRestart(c, keys, restart, s) <==> ReadableLines(s.file.lines) <= full
  {
    var read := ReadableLines(s.file.lines);
    SubsequenceAcceptedIffPrefix(c, full, keys, picks);
    if ChainValid(c, read, keys) {
      AnchoredPrefix(c.kernel, s.history, read, full);
      RestoredIsAccepted(c, keys, restart, s.history, read);
    } else {
      AuditKeepsAnchors(c, Rebuilt(restart, read), s.history);
      BrokenStaysBroken(c, keys, read, AuditNewView(c, Rebuilt(restart, read), s.history).anchors);
    }
  }

  /** `verify_anchors` accepts after a restart and an audit. */
  predicate FastAfterRestart(c: Crypto, keys: KeyTable, restart: Config, s: Sys) {
    var v := Step(c, Step(c, s, Restart(restart)), Audit).auditor;
    FastOk(c, v.core.entries, v.anchors, keys)
  }

  /** Restarting from a damaged anchor log and replaying the facts passes `verify_anchors` exactly when
      only a tail of the anchors was lost; a hole in the middle is noticed. */
  lemma {:induction false} DamageIsNoticedUnlessTail(
      c: Crypto, keys: KeyTable, cfg: Config, restart: Config, ops: seq<Op>, damaged: LogFile)
    requires SignatureCorrect(c) && Knows(c, keys, cfg) && Knows(c, keys, restart) && SignersKnown(c, keys, ops)
    requires DamagedFrom(damaged.lines, Run(c, Start(cfg), ops).file.lines)
    ensures var s := Run(c, Start(cfg), ops);
            FastAfterRestart(c, keys, restart, s.(file := damaged)) <==>
            ReadableLines(damaged.lines) <= s.auditor.anchors
  {
    EveryRun(c, keys, cfg, ops);
    var s := Run(c, Start(cfg), ops);
    var picks := ReadableIsPicked(damaged.lines, s.auditor.anchors);
    RestoredIffPrefix(c, keys, restart, s.(file := damaged), s.auditor.anchors, picks);
  }

  lemma AnchoredPrefix(k: Kernel, history: seq<Fact>, read: seq<AuditAnchor>, full: seq<AuditAnchor>)
    requires AllAnchored(k, history, full) && read <= full
    ensures AllAnchored(k, history, read)
  {
    forall i | 0 <= i < |read|
      ensures Anchored(k, history, read[i])
    {
      assert Anchored(k, history, full[i]);
    }
  }

  lemma AuditKeepsAnchors(c: Crypto, v: AuditorView, history: seq<Fact>)
    ensures v.anchors <= AuditNewView(c, v, history).anchors
  {
  }

  lemma BrokenStaysBroken(c: Crypto, keys: KeyTable, read: seq<AuditAnchor>, longer: seq<AuditAnchor>)
    requires !ChainValid(c, read, keys) && read <= longer
    ensures !ChainValid(c, longer, keys)
  {
    var i :| 0 <= i < |read| && !Continues(c, read, keys, i);
    assert !Continues(c, longer, keys, i);
  }

  lemma RestoredIsAccepted(c: Crypto, keys: KeyTable, cfg: Config, history: seq<Fact>, read: seq<AuditAnchor>)
    requires SignatureCorrect(c) && Knows(c, keys, cfg)
    requires ChainValid(c, read, keys) && AllAnchored(c.kernel, history, read)
    ensures var v := AuditNewView(c, Rebuilt(cfg, read), history);
            FastOk(c, v.core.entries, v.anchors, keys)
  {
    var s := Sys(history, LogFile([], false), Rebuilt(cfg, read));
    RebuiltInStep(c, keys, cfg, read);
    CoreStep(c, s, Audit);
    AnchorsStep(c, keys, s, Audit);
    var t := Step(c, s, Audit);
    forall i | 0 <= i < |t.auditor.anchors|
      ensures t.auditor.anchors[i].proto.hi <= |t.auditor.core.entries|
    {
      assert Anchored(c.kernel, history, t.auditor.anchors[i]);
    }
    FastOkIffReplayed(c, keys, t);
  }

  // ---------------------------------------------------------------- a torn last line

  /** A crash cut the last line of `file` off: its line break is missing, and perhaps more. */
  predicate TornFrom(torn: LogFile, file: LogFile) {
    && torn.torn && |torn.lines| == |file.lines| > 0
    && torn.lines[..|torn.lines| - 1] == file.lines[..|file.lines| - 1]
    && (torn.lines[|torn.lines| - 1].None? || torn.lines == file.lines)
  }

  /** Short of a restart, the anchors stay sound and the log receives exactly the new ones. */
  lemma {:induction false} RunKeepsAnchors(c: Crypto, keys: KeyTable, s: Sys, ops: seq<Op>)
    requires SignatureCorrect(c) && CoreInv(c.kernel, s) && AnchorsInv(c, keys, s.history, s.auditor)
    requires RestartFree(ops)
    ensures var t := Run(c, s, ops);
            && CoreInv(c.kernel, t) && AnchorsInv(c, keys, t.history, t.auditor)
            && LogsSince(s, t)
  {
    if ops == [] {
      assert s.auditor.anchors[|s.auditor.anchors|..] == [];
    } else {
      var front, last := ops[..|ops| - 1], ops[|ops| - 1];
      assert RestartFree(front);
      RunKeepsAnchors(c, keys, s, front);
      var t := Run(c, s, front);
      CoreStep(c, t, last);
      AnchorsStep(c, keys, t, last);
      StepLogs(c, s, t, last);
    }
  }

  /** The log of `t` is that of `s` with the anchors sealed since. */
  predicate LogsSince(s: Sys, t: Sys) {
    s.auditor.anchors <= t.auditor.anchors && t.file == AppendedAll(s.file, t.auditor.anchors[|s.auditor.anchors|..])
  }

  lemma StepLogs(c: Crypto, s: Sys, t: Sys, op: Op)
    requires !op.Restart? && LogsSince(s, t)
    ensures LogsSince(s, Step(c, t, op))
  {
    SealedByStep(c, t, op);
    SinceTwice(s, t, Step(c, t, op));
  }

  lemma SinceTwice(s: Sys, t: Sys, u: Sys)
    requires LogsSince(s, t) && LogsSince(t, u)
    ensures LogsSince(s, u)
  {
    var a, b, d := s.auditor.anchors, t.auditor.anchors, u.auditor.anchors;
    AppendedAllConcat(s.file, b[|a|..], d[|b|..]);
    assert d[|a|..] == b[|a|..] + d[|b|..];
  }

  lemma {:induction false} AppendedAllConcat(file: LogFile, a: seq<AuditAnchor>, b: seq<AuditAnchor>)
    ensures AppendedAll(file, a + b) == AppendedAll(AppendedAll(file, a), b)
  {
    if b == [] {
      assert a + b == a;
    } else {
      assert (a + b)[..|a + b| - 1] == a + b[..|b| - 1];
      AppendedAllConcat(file, a, b[..|b| - 1]);
    }
  }

  /** The first anchor after the torn line is lost with it; the others follow. */
  lemma {:induction false} AppendedToTorn(file: LogFile, added: seq<AuditAnchor>)
    requires file.torn && file.lines != [] && added != []
    ensures AppendedAll(file, added)
         == LogFile(file.lines[..|file.lines| - 1] + [None] + Written(added[1..]), false)
  {
    var n := |added| - 1;
    if n == 0 {
      assert added == [added[0]] && Written(added[1..]) == [];
      AppendedOne(file, added[0]);
    } else {
      AppendedToTorn(file, added[..n]);
      assert added[1..] == added[..n][1..] + [added[n]];
      WrittenSnoc(added[..n][1..], added[n]);
    }
  }

  lemma {:induction false} ReadableConcat(a: seq<LogLine>, b: seq<LogLine>)
    ensures ReadableLines(a + b) == ReadableLines(a) + ReadableLines(b)
  {
    if b == [] {
      assert a + b == a;
    } else {
      assert (a + b)[..|a + b| - 1] == a + b[..|b| - 1];
      ReadableConcat(a, b[..|b| - 1]);
    }
  }

  /** What is read after a torn line was written over: the anchors before it, and those after the lost one. */
  lemma ReadPastTorn(file: LogFile, before: seq<AuditAnchor>, added: seq<AuditAnchor>)
    requires file.torn && file.lines != [] && file.lines[..|file.lines| - 1] == Written(before) && added != []
    ensures ReadableLines(AppendedAll(file, added).lines) == before + added[1..]
  {
    AppendedToTorn(file, added);
    ReadBack(before);
    ReadBack(added[1..]);
    ReadableConcat(Written(before) + [None], Written(added[1..]));
    ReadableConcat(Written(before), [None]);
    var damaged: seq<LogLine> := [None];
    assert damaged[..0] == [] && ReadableLines(damaged) == [];
  }

  /** Dropping the elements from `i` to `j` out of `full`. */
  function Skipping(i: nat, j: nat, n: nat): seq<nat>
    requires i <= j <= n
  {
    seq(n - (j - i), p requires 0 <= p < n - (j - i) => if p < i then p else p + (j - i))
  }

  /** Reading an accepted chain with the anchors from `i` to `j` missing gives a prefix exactly when nothing follows them. */
  lemma SkippingIsPrefix(c: Crypto, keys: KeyTable, full: seq<AuditAnchor>, i: nat, j: nat)
    requires ChainValid(c, full, keys) && i < j <= |full|
    ensures Picks(full, Skipping(i, j, |full|))
    ensures Picked(full, Skipping(i, j, |full|)) == full[..i] + full[j..]
    ensures full[..i] + full[j..] <= full <==> j == |full|
  {
    var part := full[..i] + full[j..];
    if j < |full| {
      assert Continues(c, full, keys, i) && Continues(c, full, keys, j);
      assert part[i] == full[j] && full[i] != full[j];
    }
  }

  /** A crash tears the last line of the anchor log, the auditor restarts and runs on. The first anchor it then
      seals joins the torn line and is lost to the log: the next restart is noticed by `verify_anchors` exactly
      when a second one was sealed. */
  lemma {:induction false} TornLineLosesTheNextAnchor(
      c: Crypto, keys: KeyTable, cfg: Config, restart: Config, again: Config, ops: seq<Op>, torn: LogFile, later: seq<Op>)
    requires SignatureCorrect(c) && Knows(c, keys, cfg) && Knows(c, keys, restart) && Knows(c, keys, again)
    requires SignersKnown(c, keys, ops) && RestartFree(later)
    requires TornFrom(torn, Run(c, Start(cfg), ops).file)
    ensures var s := Run(c, Start(cfg), ops).(file := torn);
            var u := Run(c, Step(c, s, Restart(restart)), later);
            var sealed := |u.auditor.anchors| - |ReadableLines(torn.lines)|;
            sealed >= 0 && (FastAfterRestart(c, keys, again, u) <==> sealed <= 1)
  {
    EveryRun(c, keys, cfg, ops);
    var s := Run(c, Start(cfg), ops);
    var anchors, n := s.auditor.anchors, |s.auditor.anchors| - 1;
    var read := ReadableLines(torn.lines);
    TornReads(torn, anchors);
    AnchoredPrefix(c.kernel, s.history, read, anchors);
    PrefixIsValid(c, keys, read, anchors);
    RebuiltInStep(c, keys, restart, read);
    var t := Step(c, s.(file := torn), Restart(restart));
    assert CoreInv(c.kernel, t) && AnchorsInv(c, keys, t.history, t.auditor);
    RunKeepsAnchors(c, keys, t, later);
    TornAgain(c, keys, again, Run(c, t, later), torn, anchors[..n], read);
  }

  lemma PrefixIsValid(c: Crypto, keys: KeyTable, part: seq<AuditAnchor>, full: seq<AuditAnchor>)
    requires ChainValid(c, full, keys) && part <= full
    ensures ChainValid(c, part, keys)
  {
    forall i | 0 <= i < |part|
      ensures Continues(c, part, keys, i)
    {
      assert Continues(c, full, keys, i);
    }
  }

  /** A torn log still reads as all the anchors, or as all but the last. */
  lemma TornReads(torn: LogFile, anchors: seq<AuditAnchor>)
    requires TornFrom(torn, LogFile(Written(anchors), false))
    ensures torn.lines[..|anchors| - 1] == Written(anchors[..|anchors| - 1])
    ensures ReadableLines(torn.lines) == anchors || ReadableLines(torn.lines) == anchors[..|anchors| - 1]
    ensures ReadableLines(torn.lines) <= anchors
  {
    var n := |anchors| - 1;
    assert Written(anchors)[..n] == Written(anchors[..n]);
    ReadBack(anchors[..n]);
    ReadBack(anchors);
  }

  /** The second restart, with the anchors of `u` sealed over the torn log. */
  lemma TornAgain(
      c: Crypto, keys: KeyTable, again: Config, u: Sys, torn: LogFile, before: seq<AuditAnchor>, read: seq<AuditAnchor>)
    requires SignatureCorrect(c) && Knows(c, keys, again) && AnchorsInv(c, keys, u.history, u.auditor)
    requires torn.torn && torn.lines != [] && torn.lines[..|torn.lines| - 1] == Written(before)
    requires before <= read && |read| <= |before| + 1 && read == ReadableLines(torn.lines)
    requires read <= u.auditor.anchors && u.file == AppendedAll(torn, u.auditor.anchors[|read|..])
    ensures FastAfterRestart(c, keys, again, u) <==> |u.auditor.anchors| <= |read| + 1
  {
    var full := u.auditor.anchors;
    var added := full[|read|..];
    if added == [] {
      assert full == read;
      var picks := seq(|full|, i requires 0 <= i < |full| => i as nat);
      assert Picked(full, picks) == full;
      RestoredIffPrefix(c, keys, again, u, full, picks);
    } else {
      ReadPastTorn(torn, before, added);
      SkippingIsPrefix(c, keys, full, |before|, |read| + 1);
      assert full[..|before|] == before && full[|read| + 1..] == added[1..];
      RestoredIffPrefix(c, keys, again, u, full, Skipping(|before|, |read| + 1, |full|));
    }
  }
}
