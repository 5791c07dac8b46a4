# EvoRule: audit chain, anchors, discipline and runtime guards

A Dafny model of the parts of EvoRule that its trustworthiness rests on, with proofs about every input,
every run and every interleaving.

- **Facts and the hash chain.** `Json`, `Facts`, `StableJson`, `HashChain`: the stable JSON form of a fact and
  the hand-written parser (`ParserAcceptance`: what it accepts), the content hash and the chain fold.
- **Independent verification.** `ExportVerify`: export documents and write-ahead-log lines, first red entry stops.
- **Anchors.** `Anchors`: the signed anchor chain, its builder, two chain verifiers and the binding to facts.
- **The auditor.** `Auditor` (the object), `AuditRuns` (whole runs), `Restarts` (restarts, early seals, damaged
  logs), `WalAgreement` (the two readers of the write-ahead log), `WalLoads` (what a load leaves behind),
  `References` (what a fact refers to).
- **Execution.** `Executor`, `ExecutorLaws`, `ExecutorSteps`, `CausalTrace`: the command-line loop, resumption, every
  log explained by the machine's steps, causal tracing.
- **Discipline.** `Discipline` (the analysis), `DisciplineMarks` (what it lists and marks, over positions),
  `DisciplinePass` (what a pass does), `DisciplineGate` (guards come first), `DisciplineSound` (soundness),
  `ExecPaths` (path reading, and which paths no pass changes), `DisciplineExact` (where the condition is exact),
  `DisciplineLimits` (why each hypothesis is needed).
- **Guards.** `Breaker`, `Subscriber`, `SubscriberRuns`, `SubscriberAnswers` (what responses and signals say), `Clock`.
- **Tools.** `Stripper`, `StripperLaws`, `StripperReading` (a reading without scanning), `Utf8`, `Renumber`.

Check the project with `dafny verify dfyconfig.toml`.

## What is assumed

- BLAKE3 is an arbitrary function. Where results depend on it, they assume 64-character hexadecimal output and
  no collision among the finitely many strings that were hashed; assuming injectivity on all strings would
  contradict the fixed output length.
- ed25519 is an arbitrary signing, key-derivation and checking function with correctness of honest signatures.
- serde_json's text printer and reader are arbitrary functions. Where a hash is to pin a fact, facts that print
  alike are assumed to have the same stable form; nothing is assumed of floats or of values the printer refuses.
- The transition function, the permission gate's rulings, the dispatcher's answers and the clock readings are
  inputs. In the discipline model the comparing domains, the values written by `set` and `push` and the
  parameters of a request are arbitrary functions of the state; so is path lookup, except where a member says
  that paths are read as the source reads them.
- Compare-and-swap, load and fetch-and-add are single atomic steps.

## What the proofs found

Each finding is proved, and most are stated as an if-and-only-if.

- `verify_anchors` does not hold in every reachable state: between a restart and the replay the entries are
  behind the anchors. It holds exactly when every anchor's upper bound is within the entries.
- A seal on demand in that gap yields an anchor whose range runs backwards. The auditor's own chain check
  accepts it; the independent verifier does not.
- An anchor appended behind a torn last line of the anchor log joins that line and is lost with it; the restart
  after that is noticed exactly when a further anchor was sealed.
- The comment on `compute_anchor_hash` calls the joined fields unambiguous. They are exactly when at most one of
  the four text fields may hold bars.
- `causal_chain` need not end: a fact may name itself as its cause. It ends exactly when it ends within as many
  steps as there are entries.
- The type table of the WAL loader lacks `TransitionTrace` and `Violation`, so their reloaded entries say
  `Unknown`.
- A failed load keeps the entries accepted so far but resets the head, so the next audited fact breaks `verify`
  unless the very first record was the bad one.
- A record that stores no link loads without a fault, but its entry then says `genesis` where its link should be:
  `verify` accepts a loaded state exactly when every record behind the first stores its link. The comment at
  auditor.rs:1150 says that the recomputed link is used.
- A load that stops part way keeps its entries but leaves the clock, so the times given out next may repeat
  those of the entries kept.
- The stripper does not close a plain literal at a quote with a hash behind it. Of two literals with a hash behind
  the first, the text of the second can be taken for a comment.
- The same-pass analysis reads the domain of every top-level rule, but only branches evaluate one, and only
  `on_true` runs under it; and a path that excludes two rules may change between them. Soundness needs this of
  the excluded pairs only, and for pairs of simple rules the condition is exact.
- A dot may be escaped in a path, but a path whose text ends in a dot is refused even if that dot is escaped: a
  field whose name ends in a dot cannot be reached.

## Model

| member | source | states |
|---|---|---|
| Json.TcbToSerde | evorule-audit-chain/src/hash.rs:66-84 | printing a kernel value, at any nesting, entry by entry |
| Json.SerdeToTcb | evid-verify-core/src/parse.rs:62-91 | reading a document value; the loops accept exactly what the recursive reading accepts |
| Json.AcceptsExactlyFloatFree | evid-verify-core/src/parse.rs:62-91 | reading succeeds if and only if no float occurs anywhere inside |
| Json.SerdeRoundTrip | evid-verify-core/src/parse.rs:62-91 | reading a printed value gives its number normal form (an unsigned value that fits i64 comes back signed) |
| Json.ParseThenSerialise | evorule-audit-chain/src/hash.rs:66-84 | printing a value that was read gives the document back |
| Json.SameTextIffSameCanonical | evorule-audit-chain/src/hash.rs:66-84 | two values print alike if and only if their normal forms are equal |
| Json.ConversionReadsLike | evorule-audit-chain/src/hash.rs:66-84 | the printed value is the one document value that reads like its argument: the same literals, the same items in order, the same keys |
| StableJson.FactToStableJson | evorule-audit-chain/src/hash.rs:126-266 | the stable form of each of the nine kinds of fact |
| StableJson.AttrRoundTrip | evid-verify-core/src/parse.rs:164-176 | reading back the stable form of a hit's attribution gives the attribution, with exactly the optional fields that were set |
| StableJson.RuleHitsToJson | evorule-audit-chain/src/hash.rs:218-243 | rule hits in order, with the attribution only where there is one |
| StableJson.FactRoundTrip | evid-verify-core/src/parse.rs:187-249 | parsing the stable form of any fact succeeds and gives the fact in number normal form |
| StableJson.SameStableIffSameCanonical | evorule-audit-chain/src/hash.rs:126-266 | two facts have the same stable form if and only if their normal forms are equal |
| StableJson.ParsedFactIsCarried | evid-verify-core/src/parse.rs:187-249 | whatever document parses as a fact carries every field of that fact's stable form |
| ParserAcceptance.AcceptsExactly | evid-verify-core/src/parse.rs:92-249 | which documents parse, read off their fields: the tag is one of the nine kinds, and every field of that kind is there and of its type, with no float inside; optional attributes may be missing but not null; other fields are not looked at |
| StableJson.DisplayAgreesWithStable | evorule-audit-chain/src/fact.rs:409-532 | printing the display form of a fact gives exactly its stable form |
| HashChain.ComputeChainHash | evorule-audit-chain/src/hash.rs:376-389 | the loop computes the recursive chain hash, and reports the first fact that cannot be hashed |
| HashChain.ChainHashIsFold | evorule-audit-chain/src/hash.rs:376-389 | the chain hash exists if and only if every fact can be hashed, and is then the fold of the content hashes |
| HashChain.FoldPinsContents | evorule-audit-chain/src/hash.rs:403-418 | equal heads mean equal lists of content hashes, of any lengths; only the length of a digest is used |
| HashChain.ChainPinsHistory | evorule-audit-chain/src/hash.rs:323-418 | two fact lists of any lengths with the same chain hash hold the same facts up to stable form, if facts that print alike have the same stable form and no two of the strings hashed on the way collide |
| HashChain.HypothesesCanBeMet | evorule-audit-chain/src/hash.rs:323-418 | the hypotheses of the statement above are consistent: for any fact some kernel meets them |
| HashChain.SameHistorySameHash | evorule-audit-chain/src/hash.rs:376-389 | the converse, with no hypothesis |
| HashChain.ChainSpelt | evorule-audit-chain/src/hash.rs:333-418 | the chain hash in the hash function's own terms: `genesis` for no facts, and for each fact the hash so far and the hash of its printed stable form, in this order, hashed together |
| ExportVerify.RedIsNotGenuine | evid-verify-core/src/verify.rs:79-158 | a document with a red entry, at whichever step and behind whatever entries, is not the one an honest exporter writes |
| ExportVerify.VerifyExport | evid-verify-core/src/verify.rs:75-183 | the whole report (verdicts, first red entry, tail hash); it is all green if and only if the document is the one an honest exporter writes for its facts |
| ExportVerify.DeclaredIsChain | evid-verify-core/src/verify.rs:159-167 | while the declared contents are right, the folded tail is the chain hash of the facts |
| ExportVerify.GreenIsGenuine | evid-verify-core/src/verify.rs:75-183 | green entries plus the right last hash is the same as being genuine |
| ExportVerify.SameTailSameExport | evid-verify-core/src/verify.rs:75-183 | two accepted exports with the same last hash say the same, entry by entry |
| ExportVerify.ReportTells | evid-verify-core/src/verify.rs:79-158 | which step a report names, said through the facts: the link if the stored previous hash is not the chain hash of the facts before, else the content, else the stable text |
| ExportVerify.VerifyWalLines | evid-verify-core/src/verify.rs:217-312 | the line report: everything before the stopping line extends the chain by its own fact, the stopping line does not, and the step named is the first that fails |
| Anchors.PayloadInjective | evorule-governance/src/anchor.rs:96-109 | the nine joined fields determine the payload and the head in front of it when at most one of the four text fields, whichever it is, may hold bars |
| Anchors.FramedIffOneField | evorule-governance/src/anchor.rs:160-185 | for each set of text fields that may hold bars: the joined text determines the payload if and only if the set has at most one field |
| Anchors.BarsBreakFraming | evorule-governance/src/anchor.rs:160-185 | a family of collisions: for any names, bars in session id and chain head give two different anchors the same payload |
| Anchors.VerifyAnchorChain | evorule-governance/src/anchor.rs:393-429 | accepts exactly the chains that are numbered from zero, contiguous, hash-linked and validly signed; an error is that of the first bad anchor |
| Anchors.VerifySealChain | evid-verify-core/src/seal.rs:200-237 | accepts exactly what the other verifier accepts and whose ranges do not run backwards; an error is that of the first seal rejected |
| Anchors.VerifyBinding | evorule-governance/src/anchor.rs:440-474 | accepts exactly when every anchor's head is the chain hash of the facts it covers, and returns how many are covered |
| Anchors.Coverage | evid-verify-core/src/seal.rs:200-237 | every fact below the last upper bound of an accepted chain lies in exactly one range |
| Anchors.SubsequenceAcceptedIffPrefix | evorule-governance/src/anchor.rs:393-429 | a subsequence of an accepted chain is accepted if and only if it is a prefix |
| Anchors.LastAnchorPinsChain | evorule-governance/src/anchor.rs:166-185 | two accepted chains ending in the same anchor hash agree on every field of every anchor but the signatures, if at most one text field may hold bars |
| Anchors.AnchorChainBuilder.constructor | evorule-governance/src/anchor.rs:287-297 | a fresh builder starts at the anchor genesis, sequence zero, fact zero |
| Anchors.AnchorChainBuilder.WithPrev | evorule-governance/src/anchor.rs:363-381 | a builder that continues an existing chain |
| Anchors.AnchorChainBuilder.Seal | evorule-governance/src/anchor.rs:303-336 | the sealed anchor and the builder's next state; what they hold in any run is said by `EverySealIssues` |
| Anchors.EverySealIssues | evorule-governance/src/anchor.rs:303-361 | over any run of seals and rotations: each anchor carries session, engine and key of the last rotation before its seal (else those at the start), the height and head that were sealed, the upper bound sealed before it as its lower bound, its own number and logical time zero, and is hashed and signed as such |
| Anchors.PayloadText | evorule-governance/src/anchor.rs:96-109 | the signed and the hashed text spelt out field by field, in the order of the format |
| Anchors.AnchorErrorsAreNamed | evorule-governance/src/anchor.rs:393-429 | each error of the anchor verifier is given exactly under its own condition, when the checks before it hold |
| Anchors.SealErrorsAreNamed | evid-verify-core/src/seal.rs:200-237 | the same for the independent verifier |
| Anchors.SealKeepsChain | evorule-governance/src/anchor.rs:303-336 | sealing in step with a valid chain gives a longer valid chain, still in step |
| Anchors.RunsAreAccepted | evorule-governance/src/anchor.rs:303-429 | any run of seals and key rotations is accepted by the chain verifier |
| Anchors.RunsAreOrderedIffForward | evorule-governance/src/anchor.rs:299-303 | the ranges are ordered if and only if no seal goes below the one before: exactly the constraint documented on `seal` |
| Auditor.AnchorLog.Load | evorule-governance/src/auditor.rs:721-736 | the readable lines of the anchor log, in order, or nothing when it cannot be read |
| Auditor.AnchorLog.Persist | evorule-governance/src/auditor.rs:694-718 | one more line at the end of the anchor log; behind a torn line it joins that line and both are lost; a failed write changes nothing |
| Auditor.Auditor.constructor | evorule-governance/src/auditor.rs:196-222 | a new auditor has no entries and the genesis head |
| Auditor.Auditor.WithAnchor | evorule-governance/src/auditor.rs:647-691 | anchoring configured, the anchors restored and the builder rebuilt from the last of them; a log that cannot be read leaves the anchors and starts a fresh chain |
| Auditor.Auditor.AuditNew | evorule-governance/src/auditor.rs:349-476 | the whole new state: the tail of the log audited, then an anchor sealed, listed and logged if the interval is reached |
| Auditor.Auditor.AuditTail | evorule-governance/src/auditor.rs:369-427 | one chained, indexed, timed entry per new fact |
| Auditor.Auditor.AuditFact | evorule-governance/src/auditor.rs:375-427 | the entry of one fact, with a placeholder content when it cannot be hashed |
| Auditor.Auditor.SealIfDue | evorule-governance/src/auditor.rs:438-458 | seals exactly when the facts since the last anchor reach a positive interval |
| Auditor.Auditor.SealCurrent | evorule-governance/src/auditor.rs:741-761 | seals the audited prefix and appends the anchor to the list and to the log |
| Auditor.Auditor.SealAnchorNow | evorule-governance/src/auditor.rs:741-761 | the same on demand; nothing when anchoring is not configured |
| Auditor.Auditor.Verify | evorule-governance/src/auditor.rs:535-551 | accepts exactly when every entry links to the head recomputed from the entry before |
| Auditor.Auditor.VerifyDeep | evorule-governance/src/auditor.rs:560-596 | accepts exactly when lengths match, links hold and every content hash is recomputed; an error names the first mismatch |
| Auditor.Auditor.VerifyAnchors | evorule-governance/src/auditor.rs:778-812 | accepts exactly when the anchor chain is valid and every head is that of the entries it covers; an error names the first bad anchor |
| Auditor.Auditor.CausalChain | evorule-governance/src/auditor.rs:861-878 | lists the entries from a fact up to its root cause, or to the first cause that is not indexed, whenever the walk ends at all |
| Auditor.Auditor.LoadFromTier1Wal | evorule-governance/src/auditor.rs:1062-1199 | the state after loading: all records accepted, or those before the first fault with the head back at genesis |
| Auditor.Auditor.ReplayRecords | evorule-governance/src/auditor.rs:1078-1162 | checks and appends record by record up to the first fault |
| AuditRuns.Perform | evorule-governance/src/auditor.rs:349-761 | one step of the run model is one call on the objects, while the anchor log can be read and written |
| AuditRuns.EntriesDescribe | evorule-governance/src/auditor.rs:375-427 | entry i holds fact i's id, type, cause and content, time i + 1 and the head over the facts before |
| AuditRuns.IndexIsLastPosition | evorule-governance/src/auditor.rs:414-414 | the index holds exactly the audited ids, each at its last position |
| AuditRuns.AuditedLinksOk | evorule-governance/src/auditor.rs:535-551 | `verify` accepts whatever was audited |
| AuditRuns.AuditedDeepOk | evorule-governance/src/auditor.rs:560-596 | `verify_deep` accepts the audited facts if and only if all of them can be hashed |
| AuditRuns.RunningHeadIsChainHash | evorule-governance/src/auditor.rs:407-412 | the running head is the chain hash of the audited facts when that exists |
| AuditRuns.FastRefinesSimple | evorule-governance/src/auditor.rs:778-812 | on entries that pass the deep check, the one-table check accepts exactly when the chain verifier and the binding check from genesis both accept |
| AuditRuns.EveryRun | evorule-governance/src/auditor.rs:349-761 | after any mix of appends, audits, seals and restarts (with any keys and interval) the core is the audited prefix, the builder continues the chain, the log holds the anchors, and they are valid and sound |
| AuditRuns.FastOkIffReplayed | evorule-governance/src/auditor.rs:778-812 | in such a state `verify_anchors` accepts if and only if the entries reach up to every anchor |
| AuditRuns.ChecksInEveryRun | evorule-governance/src/auditor.rs:535-596 | what each check says in every state of every run; right after `audit_new` all of them accept |
| AuditRuns.SealsWhenDue | evorule-governance/src/auditor.rs:349-476 | over any run with restarts: an operation adds an anchor exactly when it seals on demand with anchoring on, or audits new facts that bring the uncovered ones to a positive interval, under the configuration of the last restart before it |
| AuditRuns.AnchorsCarryTheirConfig | evorule-governance/src/auditor.rs:438-476 | every anchor of every run was sealed by some operation and carries session, engine and key of the configuration then in force, the number of entries and the head after that operation, and logical time zero |
| Restarts.OrderedIffNoPrematureSeal | evorule-governance/src/auditor.rs:741-761 | the independent verifier accepts the anchors of exactly the runs in which no seal happens before the replay has caught up with the anchors; the auditor's own chain check accepts all |
| Restarts.RestartBreaksVerifyAnchors | evorule-governance/src/auditor.rs:778-812 | the gap is reached: with an interval of one, audit a fact and restart, and `verify_anchors` rejects |
| Restarts.SealInGapRunsBackwards | evorule-governance/src/auditor.rs:741-761 | seal before the replay as well, and the ranges run backwards although the auditor's own chain check accepts |
| Restarts.RestartThenAudit | evorule-governance/src/auditor.rs:647-691 | restarting and replaying is the same as just auditing |
| Restarts.RestartTransparency | evorule-governance/src/auditor.rs:647-691 | a run may restart at any time, restart again and receive facts before it audits: if nothing is sealed on demand in between, its state is that of the run that never restarted, but for the entries that await the audit |
| Restarts.ReplayedRunsPassEveryCheck | evorule-governance/src/auditor.rs:535-812 | in such a run every check passes in every state in which no restart awaits its audit |
| Restarts.DamageIsNoticedUnlessTail | evorule-governance/src/auditor.rs:721-736 | after a restart from a damaged anchor log and a replay, `verify_anchors` accepts if and only if only a tail of the anchors was lost |
| Restarts.TornLineLosesTheNextAnchor | evorule-governance/src/auditor.rs:694-736 | after a crash tears the last line of the anchor log, the first anchor sealed next is lost with it: the following restart is noticed by `verify_anchors` if and only if a second one was sealed |
| WalAgreement.RecordAgrees | evorule-governance/src/auditor.rs:1088-1131 | on one full record the two readers agree although they check in different orders |
| WalAgreement.StopsAgree | evid-verify-core/src/verify.rs:217-312 | where the line verifier stops the loader stops, and nowhere else |
| WalAgreement.ReadTwice | evorule-governance/src/auditor.rs:1062-1199 | run on the same lines, the loader succeeds if and only if the report is all green, and otherwise both stop at the same line |
| WalAgreement.LoadIsAudit | evorule-governance/src/auditor.rs:1062-1199 | loading accepted lines builds what auditing their facts builds, but for the type names |
| WalAgreement.LoadedStateIsSound | evorule-governance/src/auditor.rs:1164-1179 | after a successful load the links and the deep check hold and the head is the chain hash of the facts |
| WalAgreement.SameEntriesIffKnownTypes | evorule-governance/src/auditor.rs:1476-1485 | loaded and audited entries are equal if and only if no fact is a TransitionTrace or a Violation, which the type table lacks |
| WalAgreement.AuditAfterFailedLoad | evorule-governance/src/auditor.rs:1067-1072 | auditing on after a failed load breaks `verify` if and only if the bad record was not the first |
| WalAgreement.RepeatedLineBreaksTheChain | evorule-governance/src/auditor.rs:1067-1072 | such a load is reached by a log that repeats its first line |
| WalLoads.LoadedLinksIffStored | evorule-governance/src/auditor.rs:1078-1158 | after a load without a fault, whichever hash fields its records carry, `verify` accepts if and only if every record behind the first stores its link |
| WalLoads.LoadedDeepIff | evorule-governance/src/auditor.rs:535-600 | and `verify_deep` accepts the records' own facts if and only if, besides, every fact can be hashed |
| WalLoads.OldFormatLoadsButFailsVerify | evorule-governance/src/auditor.rs:1145-1152 | so a log in the old format loads without a fault and is rejected by `verify` if and only if it holds two facts or more |
| WalLoads.LoadedHeadIsChainHash | evorule-governance/src/auditor.rs:1118-1175 | the head of a load is the chain hash of its facts, whichever fields were stored |
| WalLoads.TimesAscendAfterLoad | evorule-governance/src/auditor.rs:1176-1182 | auditing on after a load gives strictly ascending times if and only if the load was complete or the clock already stood past the records it took |
| WalLoads.LoaderTells | evorule-governance/src/auditor.rs:1091-1135 | each error of the loader says what was stored and what was expected, at the first of content, link and chain hash that is wrong |
| WalLoads.LineVerifierTells | evid-verify-core/src/verify.rs:217-312 | which step the line verifier names, said through the chain hashes of the facts |
| Executor.Execute | evorule-cli/src/executor.rs:60-218 | the whole log and the returned payload, for any transition function; what the log is, is said fact by fact by `LogIsDictated` |
| Executor.Iterate | evorule-cli/src/executor.rs:86-207 | one iteration: budget, pop, execute, record |
| ExecutorLaws.LogIsWellFormed | evorule-cli/src/executor.rs:60-218 | ids from one, Command first, Stable last, at most one Error and next to last, at most `max_steps + 3` facts, the version counting transitions, every cause the transition right before |
| ExecutorLaws.EventsResume | evorule-cli/src/executor.rs:86-207 | after a transition, what happens is what happens from its payload and queue with the remaining budget |
| ExecutorLaws.Resumes | evorule-cli/src/executor.rs:60-218 | the facts after log index k are those of the loop resumed from that transition with budget `max_steps - k` |
| ExecutorLaws.ResumedIsShifted | evorule-cli/src/executor.rs:60-218 | they are the facts of a fresh loop with ids and causes moved up by k; only the two messages that quote a step number may differ |
| ExecutorSteps.LogIsDictated | evorule-cli/src/executor.rs:60-207 | every log explained by the machine's steps: it opens with the command; wherever the loop comes round, payload and queue are those of the last transition (else the given ones) less one instruction per violation since, and the next fact is what the machine dictates from there, with its id, cause and message; the log ends exactly where the queue is empty, the budget is spent or the step stops |
| ExecutorSteps.LogCloses | evorule-cli/src/executor.rs:209-217 | the closing fact counts the transitions in the log, and the payload handed back is that of the last of them |
| CausalTrace.LogCausesAreEarlier | evorule-governance/src/auditor.rs:1492-1499 | in an audited executor log every followed cause is strictly earlier |
| CausalTrace.ExecutionIsTraced | evorule-governance/src/auditor.rs:861-878 | tracing from a transition or an I/O request ends, and lists the earlier transitions in reverse down to the Command |
| CausalTrace.MoversAreAll | evorule-governance/src/auditor.rs:861-878 | the traced positions are all the transitions before, and the Command, and nothing else |
| CausalTrace.EndsIffWithinEntries | evorule-governance/src/auditor.rs:861-878 | tracing from an id ends if and only if it ends within as many steps as there are entries |
| CausalTrace.TraceIsTheTrace | evorule-governance/src/auditor.rs:861-878 | in any indexed core a walk that ends lists the trace: the entry of the id, then for each entry the one its cause is indexed at, until there is no cause or it is not indexed |
| CausalTrace.TracesAreTheSame | evorule-governance/src/auditor.rs:861-878 | and there is only one such list |
| CausalTrace.AuditedCausesAreEarlier | evorule-governance/src/auditor.rs:1492-1499 | audited entries have all indexed causes earlier if and only if each fact's cause, where it occurs, occurs for the last time before the fact |
| CausalTrace.EarlierCausesEnd | evorule-governance/src/auditor.rs:861-878 | tracing then ends from every id |
| CausalTrace.SelfCausedFactIsTracedForever | evorule-governance/src/auditor.rs:861-878 | auditing one state transition that names itself as its cause gives a core whose trace never ends |
| References.AuditedCauseIsGiven | evorule-governance/src/auditor.rs:1492-1499 | the cause of an audited entry is the cause that the stable form of a transition or request gives, or the request that a response gives, and nothing else |
| Discipline.WalkTargets | evorule-discipline/src/lib.rs:199-223 | collects the instruction types a satisfied domain proves |
| Discipline.CollectExistsPaths | evorule-discipline/src/lib.rs:302-339 | collects the paths a satisfied domain proves present and absent |
| Discipline.BuildTopFacts | evorule-discipline/src/lib.rs:280-293 | both, for one top-level rule |
| Discipline.SamePass | evorule-discipline/src/lib.rs:440-444 | whether an earlier rule changes state and is not proved to sit out the pass; `MarkedIffChangeBefore` says so over the nodes |
| Discipline.Walk | evorule-discipline/src/lib.rs:382-402 | a node and everything below it, parents first, with the inherited fact |
| Discipline.Flatten | evorule-discipline/src/lib.rs:428-457 | every node of the rule set with its path and its preceded-by-mutating fact; the three members below say what that is |
| DisciplineMarks.MarkedIffChangeBefore | evorule-discipline/src/lib.rs:382-457 | a node is listed under its own position, and is marked if and only if a `set` or a `push` stands before it: below an earlier sibling of it or of a node above it, or anywhere in an earlier rule whose domain may be met in the same pass |
| DisciplineMarks.EveryNodeIsListed | evorule-discipline/src/lib.rs:382-402 | no node of the rule set is left out |
| DisciplineMarks.ListedInOrder | evorule-discipline/src/lib.rs:382-457 | rule by rule and in preorder, hence no position twice |
| DisciplineMarks.NoChangeNoMark | evorule-discipline/src/lib.rs:440-444 | a rule set without `set` and `push` has nothing marked |
| DisciplineSound.RunIsCovered | evorule-discipline/src/lib.rs:404-426 | whatever runs inside a rule is listed, and marked if anything changed state before it in that run |
| DisciplineSound.SatisfiedDomainHolds | evorule-discipline/src/lib.rs:192-223 | the types and paths read off a domain are true of every state that satisfies it |
| DisciplinePass.EventIsBelow | evorule-tcb/src/executor.rs:699-764 | whatever runs comes from the subtree of the instruction, so effects that run are effects the analysis can see |
| DisciplineSound.EffectMeetsDomain | evorule-tcb/src/executor.rs:717-731 | a rule that acts only under its domain, and did act, met its domain when it started |
| DisciplineSound.VisitsFollow | evorule-tcb/src/transition.rs:277-323 | each rule of a pass starts from where the one before left the state; the instruction is the same throughout, and so is the rest until something changes it |
| DisciplineSound.RunKeepsState | evorule-tcb/src/executor.rs:120-165 | the instruction never changes during a pass, and nothing changes before the first `set` or `push` |
| DisciplineSound.PrecededIsSound | evorule-discipline/src/lib.rs:428-457 | for every rule set and pass: an I/O request that is reached after a `set` or `push` is marked, if of two rules taken to exclude each other both act only under their domains and, where the exclusion rests on paths, one of these stays as it is between the two rules |
| DisciplineSound.NothingIsLost | evorule-discipline/src/lib.rs:370-375 | in a rule set with no marked request, under the same conditions, the state discarded by an I/O request is the input state of the pass |
| DisciplineSound.StaticallySound | evorule-discipline/src/lib.rs:428-457 | the same from what the rules say alone, for every pass: each exclusion is by type, or by a path that the instruction settles |
| DisciplineSound.SoundByTypes | evorule-discipline/src/lib.rs:436-438 | where every exclusion is by instruction type nothing is asked of the paths |
| DisciplineGate.GuardsComeFirst | evorule-tcb/src/transition.rs:223-276 | a rule that is not a top-level `enforce` gets its turn if and only if the rules are not too many and every such guard, wherever it stands in the list, lets the input state of the pass through |
| DisciplineGate.OrderDoesNotMatter | evorule-tcb/src/transition.rs:233-235 | so reordering the rules does not get round a guard |
| DisciplineGate.GateBlocksIff | evorule-tcb/src/transition.rs:237-274 | a pass is blocked, with this index and reason, exactly by the first guard that does not let the state through, if that guard forbids it |
| DisciplineExact.ExactForPairs | evorule-discipline/src/lib.rs:440-444 | exactness: for a simple rule that sets and a simple rule that requests, taken to exclude each other, no strict world loses a change if and only if the pair meets the static condition, or both act only outside their domains and these are complements about a fixed path |
| DisciplineLimits.ExistsPairExact | evorule-discipline/src/lib.rs:346-348 | for the most common pair, set where a path exists and request where it does not: no change is ever lost if and only if the path is fixed |
| DisciplineExact.ConjunctionIsExact | evorule-discipline/src/lib.rs:302-339 | a nested conjunction is satisfied if and only if the types and paths read off it are as they say |
| DisciplineExact.PairUnmarked | evorule-discipline/src/lib.rs:428-457 | of two rules that are taken to exclude each other, the first without requests and the second without state changes, nothing is marked |
| ExecPaths.ParsePathSegments | evorule-tcb/src/path.rs:172-269 | the loop reads a path as specified: escapes, indices, and the refusal of empty segments |
| ExecPaths.PathRoundTrip | evorule-tcb/src/path.rs:6-18 | every list of named segments can be spelt with the escapes, and reading it back gives the segments |
| ExecPaths.SpeltPathResolves | evorule-tcb/src/path.rs:52-92 | resolving a spelt path follows its segments, unless its text ends in a dot |
| ExecPaths.TrailingDotIsRefused | evorule-tcb/src/path.rs:57-60 | so a field whose name ends in a dot can be spelt but not reached |
| ExecPaths.LooseEndsAreRefused | evorule-tcb/src/path.rs:182-207 | behind any name, a second dot and a lone backslash are refused |
| ExecPaths.OpenBracketIsRefused | evorule-tcb/src/path.rs:209-229 | behind any name, a bracket that is not closed is refused |
| ExecPaths.BadBracketsAreRefused | evorule-tcb/src/path.rs:209-243 | behind any name, a bracket that holds no number is refused, and so is anything but a dot or a bracket right behind a closed one |
| ExecPaths.RealPathsRespectFixed | evorule-tcb/src/path.rs:118-122 | a path that does not lead into the payload or the queue is settled by the instruction |
| ExecPaths.PayloadPathsAreNotFixed | evorule-tcb/src/path.rs:118-122 | a path into the payload is not: under any instruction some payloads have it and some do not |
| ExecPaths.InstructionPathsAreFixed | evorule-tcb/src/path.rs:118-122 | every path below `instruction`, with or without the `__exec__` prefix, is fixed |
| ExecPaths.SoundOnFixedPaths | evorule-discipline/src/lib.rs:428-457 | with the source's own reading of paths: exclusions by type or by such paths are sound in every pass |
| DisciplineLimits.OnFalseEffectsLoseState | evorule-discipline/src/lib.rs:428-457 | effects under `on_false` defeat the analysis, for every path and in every world in which the `set` succeeds and leaves the path missing |
| DisciplineLimits.ClearedPathLosesState | evorule-discipline/src/lib.rs:346-348 | so does a path that the first rule clears, in every world in which its `set` does that |
| DisciplineLimits.IgnoredDomainLosesState | evorule-discipline/src/lib.rs:280-293 | so does a domain on a rule that is not a branch, in every world in which its `set` succeeds |
| DisciplineLimits.FieldsRefusesEmptyParams | evorule-tcb/src/executor.rs:245-256 | in the world of the three examples below a `set` without `attr` and a request without `io_type` end the pass with the source's error |
| DisciplineLimits.OnFalseLosesForReal | evorule-tcb/src/executor.rs:245-420 | the first family there, on a payload field and with complete parameters |
| DisciplineLimits.ClearingLosesForReal | evorule-tcb/src/executor.rs:245-420 | the second: the field is set to null |
| DisciplineLimits.IgnoredDomainLosesForReal | evorule-tcb/src/executor.rs:245-420 | the third |
| Breaker.CircuitState.IsTripped | evorule-governance/src/circuit_breaker.rs:107-117 | the answer and the reset once the window has passed |
| Breaker.CircuitState.RecordDeny | evorule-governance/src/circuit_breaker.rs:122-148 | the new queue and trip instant; a signal always counts exactly the threshold |
| Breaker.WindowIsSuffix | evorule-governance/src/circuit_breaker.rs:126-135 | dropping old times from the front leaves exactly the times in the closed window |
| Breaker.TripsExactlyAtThreshold | evorule-governance/src/circuit_breaker.rs:122-148 | over any history of calls: a trip happens if and only if the denials since the last trip in the closed window reach the threshold |
| Breaker.RefusesThroughWindow | evorule-governance/src/circuit_breaker.rs:107-117 | from a trip until its window has passed only checks are made and all answer tripped, so trips are a window apart |
| Breaker.ResetsAfterWindow | evorule-governance/src/circuit_breaker.rs:107-117 | the first check after the window starts afresh |
| Subscriber.IoSubscriber.NextFactId | evorule-governance/src/io_subscriber.rs:240-244 | ids counted up one by one |
| Subscriber.IoSubscriber.HandleFact | evorule-governance/src/io_subscriber.rs:304-341 | the facts sent, the new state and the attempts made for any event, on an open or closed channel |
| Subscriber.IoSubscriber.DispatchAndRespond | evorule-governance/src/io_subscriber.rs:354-576 | breaker first, then gate, then dispatch; exactly one response last; what it says is said by `EveryReplyReads` |
| Subscriber.IoSubscriber.CountDenial | evorule-governance/src/io_subscriber.rs:424-457 | a static denial is counted, and a trip submits its signal before the response |
| Subscriber.IoSubscriber.DispatchWithRetries | evorule-governance/src/io_subscriber.rs:507-562 | the retry loop stops at the attempt the specification names |
| SubscriberRuns.HandleAll | evorule-governance/src/io_subscriber.rs:261-299 | a whole run of the object, with a receiver that may go away at any point, sends exactly the specified facts and fails at the first request of ours after that |
| SubscriberRuns.IdsAreConsecutive | evorule-governance/src/io_subscriber.rs:240-244 | the ids sent in a run are 10000, 10001, and so on |
| SubscriberRuns.EveryRequestIsAnsweredOnce | evorule-governance/src/io_subscriber.rs:304-576 | in a run every request that is not skipped gets exactly one response, in order, and nothing else does |
| SubscriberRuns.RetriesOnlyTransients | evorule-governance/src/io_subscriber.rs:507-562 | every attempt before the last failed transiently, and the last succeeded, failed for good or was the fourth |
| SubscriberRuns.SignalsExactlyAtThreshold | evorule-governance/src/io_subscriber.rs:424-457 | a signal is sent exactly for the static denial with which the window since the last trip reaches the threshold |
| SubscriberRuns.RefusedThroughWindow | evorule-governance/src/io_subscriber.rs:376-398 | every request of a run within the window of a signal is refused |
| SubscriberRuns.SignalsAreAWindowApart | evorule-governance/src/io_subscriber.rs:424-457 | two signals of a run are at least a window apart |
| SubscriberAnswers.EveryReplyReads | evorule-governance/src/io_subscriber.rs:304-576 | over what was sent and the arrivals alone: every request of ours is answered, with success if and only if it did not ask within the window of an earlier signal, a gate is assembled and allowed it, and the last attempt succeeded, and then with that attempt's result; else with null and an error that names the trip, the missing gate or the denial with its route, or is the last attempt's own; a trip signal before it has the documented content; anything else gets nothing |
| SubscriberAnswers.RefusedIffWithinWindow | evorule-governance/src/io_subscriber.rs:376-398 | the breaker refuses a request if and only if it asks within the window of an earlier signal of the run |
| SubscriberAnswers.SignalIffEnoughCount | evorule-governance/src/io_subscriber.rs:424-457 | a signal is sent if and only if the arrival is a denial by a static route outside every window, and with it the denials since the last signal that lie in the closed window reach a positive threshold |
| SubscriberAnswers.RefusalsReadDifferently | evorule-governance/src/io_subscriber.rs:386-494 | the texts for a tripped breaker, a missing gate and a denial differ, whatever the I/O types |
| SubscriberAnswers.DenialsTell | evorule-governance/src/io_subscriber.rs:370-473 | denials of one I/O type read alike only for the same verdict and the same route |
| Clock.EveryInterleaving | evorule-governance/src/clock.rs:66-110 | linearizability: the counter, and the value each operation left, are those of performing the operations one at a time in the order they took effect |
| Clock.CounterNeverDecreases | evorule-governance/src/clock.rs:66-110 | the counter never goes down in any interleaving |
| Clock.DropsIffWraps | evorule-governance/src/clock.rs:66-110 | a step lowers the counter if and only if it wraps a counter above zero past 2^64 |
| Clock.TicksAreDistinct | evorule-governance/src/clock.rs:66-68 | no two ticks return the same value, and later ticks return larger ones |
| Clock.MergesAndAdvances | evorule-governance/src/clock.rs:79-110 | what an operation left, from what the one before it left: a tick one more, a merge one more than the larger of that and what it merged, an advance the larger of that and its target |
| Clock.EveryCallTakesEffectOnce | evorule-governance/src/clock.rs:66-110 | in any interleaving the operations a thread began are those of it that took effect, in the same order and with the same arguments, and then at most the one it is in the middle of |
| Clock.FailedSwapMeansProgress | evorule-governance/src/clock.rs:79-110 | a compare-and-swap fails only if another operation took effect since the load |
| Stripper.StripInlineBlockComments | evorule-tcb/build.rs:172-262 | the scanner with its final UTF-8 check, on every line of bytes; what it does is said without scanning by `StripFollowsReading` |
| Stripper.CleanLine | evorule-tcb/build.rs:172-262 | the scan, giving up as soon as a literal or comment does not close |
| Stripper.FindOpening | evorule-tcb/build.rs:177-201 | how a plain, byte or raw literal opens, with its hashes; `LiteralIffRead` says the same without scanning |
| Stripper.FindClose | evorule-tcb/build.rs:202-232 | where a literal closes: a quote followed by exactly as many hashes |
| Stripper.FindCommentEnd | evorule-tcb/build.rs:234-257 | where a nested comment closes, by counting depth |
| Stripper.CountingIsNesting | evorule-tcb/build.rs:235-250 | counting depth finds the close that recursive descent into nested comments finds |
| StripperLaws.PiecesAreExact | evorule-tcb/build.rs:172-262 | the pieces put together are the line, and each is one byte of code, a literal or a nested comment that opens and closes as such |
| StripperLaws.CleanedStaysClean | evorule-tcb/build.rs:172-262 | a cleaned text has no comment left, and cleaning it again changes nothing |
| StripperLaws.StripIsExact | evorule-tcb/build.rs:172-262 | of every line of text whose literals and comments close, exactly the comments are replaced, by one space each; any other line comes back as it is |
| StripperLaws.StripIsCleaned | evorule-tcb/build.rs:258-261 | the UTF-8 check at the end never fails: taking comments out of text leaves text |
| StripperLaws.StripIsIdempotent | evorule-tcb/build.rs:172-262 | stripping twice is stripping once |
| StripperReading.LiteralIffRead | evorule-tcb/build.rs:177-232 | a text is scanned as one literal if and only if it reads as one: a quote, with or without `b`, then bytes and backslash pairs in which every bare quote has a hash behind it, then a quote; or `r` or `br` with hashes, a quote, a body in which no quote has exactly that many hashes behind it, a quote and the hashes |
| StripperReading.PiecesAreTheReading | evorule-tcb/build.rs:172-262 | the scan finds exactly the reading of a line as code, literals and nested comments: code is a byte at which neither a literal nor a comment opens, and a literal has no hash behind it; there is at most one reading |
| StripperReading.StripFollowsReading | evorule-tcb/build.rs:172-262 | of a line of text that reads, each comment comes out as one space and every byte of literals and code comes out as it is, in place |
| StripperReading.StripsOnlyWhatReads | evorule-tcb/build.rs:224-253 | a line that does not read comes back as it is |
| StripperReading.PlainClosesAtQuoteIffNoHash | evorule-tcb/build.rs:208-223 | a plain literal closes at its first bare quote if and only if no hash stands behind that quote |
| StripperReading.HashBehindLiteralLosesText | evorule-tcb/build.rs:157-162 | so of two literals with a hash behind the first the text of the second is taken for a comment |
| Renumber.RenumberFacts | evorule-eval/src/lib.rs:556-647 | the loop computes the specified renumbering |
| Renumber.IdsAndContents | evorule-eval/src/lib.rs:556-647 | ids are 1..n and nothing but ids and references changes, for any facts |
| Renumber.ReferencesFollow | evorule-eval/src/lib.rs:570-571 | each reference goes to the last fact of its own segment with that id, or is left alone if the segment has none |
| Renumber.CausalityIsPreserved | evorule-eval/src/lib.rs:552-555 | with distinct ids in each segment, a fact still refers to the same fact |
| Renumber.Idempotent | evorule-eval/src/lib.rs:556-647 | renumbering twice is renumbering once, for any facts |
| References.ReferenceIsGiven | evorule-eval/src/lib.rs:570-640 | what is renumbered as a reference is exactly what the stable form of a fact gives as its cause or its request |
| References.RenumberKeepsForm | evorule-eval/src/lib.rs:556-647 | renumbering changes in the stable form of a fact only the id and the reference |

## Left out

- BLAKE3, ed25519, hex coding, gzip, and the text form of JSON: library code, abstracted as said above.
- File and directory input and output: the anchor log is a list of lines with flags for a torn end, and for being
  readable and writable at all.
- Auditor.Auditor.AuditNew: leaves out the audited version, the call counter, and the automatic verification with
  its skip and failure counters.
- Error texts of the auditor, the parser and the verifiers, beyond what names the failing position and kind.
- Import and export of whole auditors, and the deprecated auditor WAL.
- Auditor.Auditor.LoadFromTier1Wal: only records carrying all three hash fields are compared with the line
  verifier, which reads no others.
- Auditor.Auditor.CausalChain: is called only where the walk ends, which is characterised; a walk that does not
  end is stated as such, not run.
- Executor.Execute: the step limit leaves room for the ids in a u64, whose overflow is not modelled; how a
  count and an instruction print inside messages is arbitrary.
- The reactor main loop, `FactsLog` internals and the permission gate: taken as a list of facts and as inputs.
- Shadowing (DC-05), the one-request rule (DC-08) and the report of violations.
- Discipline.BuildTopFacts: leaves out the shadow source and the targets read through `not`, which shadowing uses.
- Discipline.Walk: keeps the position of a node instead of its textual path, and leaves out its targets and the
  number of requests in its tree.
- Discipline.Flatten: likewise.
- DisciplineSound.PrecededIsSound: asks that of two rules taken to exclude each other both act only under
  `on_true`, and that where the exclusion rests on paths one of them stays as it is; what happens otherwise is shown
  in `DisciplineLimits`.
- DisciplineExact.ExactForPairs: two rules, each a leaf or one branch on a conjunction; nested branches, and other
  rules in between, are left open.
- `DisciplineLimits` shows its examples with a `set` that writes one plain payload field; indices, nested fields
  and arithmetic are not modelled.
- After the pass: how a finished pass is classed as ignored or as a new state.
- Subscriber.IoSubscriber.HandleFact: back-off delays, metrics and tracing; which error texts count as transient
  is an arbitrary predicate.
- Lagging of the event channel, which drops events before they reach the subscriber.
- Breaker.CircuitState.RecordDeny: windows longer than an i64 of seconds.
- Clock.EveryInterleaving: runs in which the counter passes 2^64; there the counter drops, as a lemma says.
- The other copies of the scanner, the keyword tables and the strategy scanning.
- Renumber.RenumberFacts: more facts than a u64 counts; `run_once` and `run_batch`, which produce the segments.
