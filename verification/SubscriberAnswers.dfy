/** What the responses and trip signals of a run say, read off the arrivals and off what was sent. */
module SubscriberAnswers {
  import opened Base
  import opened Json
  import opened Facts
  import opened Breaker
  import opened Subscriber
  import opened SubscriberRuns

  // ---------------------------------------------------------------- a run, from outside

  /** What was sent for arrival `n`. */
  function Reply(parts: Parts, arrivals: seq<Arrival>, n: nat): seq<Fact>
    requires n < |arrivals| && SubscriberRuns.Fits(arrivals)
  {
    var all := Sent(parts, arrivals, n + 1);
    if |Sent(parts, arrivals, n)| <= |all| then all[|Sent(parts, arrivals, n)|..] else []
  }

  predicate Skipped(parts: Parts, f: Fact) {
    f.IoRequest? && parts.skip.Some? && parts.skip.value(f.ioType, f.params)
  }

  /** A command was submitted for arrival `n`. */
  predicate SignalSent(parts: Parts, arrivals: seq<Arrival>, n: nat)
    requires n < |arrivals| && SubscriberRuns.Fits(arrivals)
  {
    exists k | 0 <= k < |Reply(parts, arrivals, n)| :: Reply(parts, arrivals, n)[k].Command?
  }

  /** A signal was sent less than a window before arrival `n` asks. */
  predicate WithinWindow(parts: Parts, arrivals: seq<Arrival>, n: nat)
    requires n < |arrivals| && SubscriberRuns.Fits(arrivals)
  {
    parts.breaker.Some?
    && exists s | 0 <= s < n :: SignalSent(parts, arrivals, s)
                             && arrivals[n].asked < arrivals[s].denied + parts.breaker.value.window
  }

  /** Attempt `t` is the last one made: every attempt before it failed in a way worth retrying, and it
      succeeded, failed in a way not worth retrying, or was the fourth. */
  predicate LastAttempt(parts: Parts, answers: nat -> Result<JsonValue, string>, t: nat) {
    && 1 <= t <= 4
    && (forall k | 1 <= k < t :: answers(k).Err? && parts.retryable(answers(k).error))
    && (answers(t).Ok? || !parts.retryable(answers(t).error) || t == 4)
  }

  // ---------------------------------------------------------------- what a response says

  /** Result and error of a response, from how the request fared. */
  predicate Says(parts: Parts, a: Arrival, refused: bool, t: nat, result: JsonValue, error: Option<string>)
    requires a.fact.IoRequest?
  {
    var reached := !refused && parts.gated && a.ruling.verdict == Allow;
    && (error == None <==> reached && a.answers(t).Ok?)
    && (error == None ==> result == a.answers(t).value)
    && (error.Some? ==> result == Null)
    && (reached && a.answers(t).Err? ==> error == Some(a.answers(t).error))
    && (refused ==> error.Some? && TellsTrip(error.value, a.fact.ioType))
    && (!refused && !parts.gated ==> error.Some? && TellsMissingGate(error.value))
    && (!refused && parts.gated && a.ruling.verdict != Allow ==>
          error.Some? && TellsDenial(error.value, a.fact.ioType, a.ruling))
  }

  predicate TellsTrip(text: string, ioType: string) {
    text == "circuit breaker tripped" + " (circuit=tripped): io_type=" + ioType + " egress denied until window expiry"
  }

  predicate TellsMissingGate(text: string) {
    text == "permission gate" + " not assembled (fail-closed): this subscriber"
            + " requires with_permission_gate(..) before it dispatches I/O"
  }

  /** A denial names the route that was hit, the I/O type, the verdict and the resource. */
  predicate TellsDenial(text: string, ioType: string, r: Ruling) {
    text == "permission denied" + RouteText(r)
            + (": io_type=" + ioType + " " + ReasonText(r) + ", resource=io:" + ioType)
  }

  function RouteText(r: Ruling): string {
    if r.route.Some? then " (route=" + r.route.value + ")" else ""
  }

  function ReasonText(r: Ruling): string {
    if r.verdict == Reject then "denied by permission gate" else "pending permission approval (fail-closed)"
  }

  /** What a trip signal says: set the breaker's attribute to the threshold, the window in whole seconds and
      the number of denials that tripped it, which is the threshold. */
  predicate IsSignal(f: Fact, cfg: Config) {
    && f.Command? && f.instruction.Object? && f.instruction.fields.Keys == {"type", "params"}
    && f.instruction.fields["type"] == String("set") && f.instruction.fields["params"].Object?
    && var params := f.instruction.fields["params"].fields;
    && params.Keys == {"attr", "operation", "value"}
    && params["attr"] == String("meta_security.circuit_breaker") && params["operation"] == String("set")
    && params["value"].Object?
    && var value := params["value"].fields;
    && value.Keys == {"family", "threshold", "window_secs", "count"}
    && value["family"] == String("off_allowlist_anchors") && value["threshold"] == Integer(cfg.threshold)
    && value["count"] == Integer(cfg.threshold) && value["window_secs"].Integer?
    && value["window_secs"].i * 1_000_000_000 <= cfg.window < (value["window_secs"].i + 1) * 1_000_000_000
  }

  // ---------------------------------------------------------------- a run, from inside

  /** What was sent for an arrival is what handling it produces. */
  lemma ReplyIsProduced(parts: Parts, arrivals: seq<Arrival>, n: nat)
    requires n < |arrivals| && SubscriberRuns.Fits(arrivals)
    ensures Reply(parts, arrivals, n) == Produced(parts, At(parts, arrivals, n), arrivals[n])
  {
  }

  lemma ProducedIsSignalled(parts: Parts, v: View, a: Arrival)
    requires v.nextId + 2 <= U64_SIZE
    ensures (exists k | 0 <= k < |Produced(parts, v, a)| :: Produced(parts, v, a)[k].Command?) <==> Signals(parts, v, a)
  {
    if Signals(parts, v, a) {
      assert Produced(parts, v, a)[0].Command?;
    }
  }

  lemma SentIffSignals(parts: Parts, arrivals: seq<Arrival>, n: nat)
    requires n < |arrivals| && SubscriberRuns.Fits(arrivals)
    ensures SignalSent(parts, arrivals, n) <==> Signals(parts, At(parts, arrivals, n), arrivals[n])
  {
    ReplyIsProduced(parts, arrivals, n);
    ProducedIsSignalled(parts, At(parts, arrivals, n), arrivals[n]);
  }

  /** While the breaker is tripped, some signal opened the window. */
  lemma {:induction false} TrippedBySignal(parts: Parts, arrivals: seq<Arrival>, n: nat) returns (s: nat)
    requires n <= |arrivals| && parts.breaker.Some? && At(parts, arrivals, n).breaker.trippedUntil.Some?
    ensures s < n && Signals(parts, At(parts, arrivals, s), arrivals[s])
    ensures At(parts, arrivals, n).breaker.trippedUntil == Some(arrivals[s].denied + parts.breaker.value.window)
  {
    var v := At(parts, arrivals, n - 1);
    if Signals(parts, v, arrivals[n - 1]) {
      s := n - 1;
    } else {
      s := TrippedBySignal(parts, arrivals, n - 1);
    }
  }

  /** The breaker refuses a request exactly when it asks within the window of an earlier signal. */
  lemma RefusedIffWithinWindow(parts: Parts, arrivals: seq<Arrival>, n: nat)
    requires n < |arrivals| && SubscriberRuns.Fits(arrivals) && Timed(arrivals)
    ensures Refused(parts, At(parts, arrivals, n), arrivals[n]) <==> WithinWindow(parts, arrivals, n)
  {
    if Refused(parts, At(parts, arrivals, n), arrivals[n]) {
      var s := TrippedBySignal(parts, arrivals, n);
      SentIffSignals(parts, arrivals, s);
    }
    if WithinWindow(parts, arrivals, n) {
      var s :| 0 <= s < n && SignalSent(parts, arrivals, s)
               && arrivals[n].asked < arrivals[s].denied + parts.breaker.value.window;
      SentIffSignals(parts, arrivals, s);
      RefusedThroughWindow(parts, arrivals, s, n);
    }
  }

  lemma FinalIsLastAttempt(parts: Parts, answers: nat -> Result<JsonValue, string>)
    ensures LastAttempt(parts, answers, FinalAttempt(parts, answers, 1))
  {
    RetriesOnlyTransients(parts, answers, 1);
  }

  lemma AnswerSays(parts: Parts, v: View, a: Arrival, t: nat)
    requires Mine(parts, a.fact) && t == FinalAttempt(parts, a.answers, 1)
    ensures var (result, error) := Answer(parts, v, a);
            Says(parts, a, Refused(parts, v, a), t, result, error)
  {
  }

  lemma SignalIsSignal(cfg: Config, id: FactId)
    ensures IsSignal(Command(id, SignalInstruction(SignalValue(cfg, cfg.threshold))), cfg)
  {
  }

  // ---------------------------------------------------------------- every request and its answer

  /** Last of all comes the response, and before it at most a trip signal; anything that is not a request of
      ours gets nothing. */
  predicate ReplyReads(parts: Parts, a: Arrival, reply: seq<Fact>, refused: bool, signalled: bool, t: nat) {
    && (reply == [] <==> !a.fact.IoRequest? || Skipped(parts, a.fact))
    && (reply != [] ==>
          var last := reply[|reply| - 1];
          && last.IoResponse? && last.requestId == a.fact.id
          && Says(parts, a, refused, t, last.result, last.error)
          && (if signalled then parts.breaker.Some? && |reply| == 2 && IsSignal(reply[0], parts.breaker.value)
              else |reply| == 1))
  }

  lemma ProducedReads(parts: Parts, v: View, a: Arrival, t: nat)
    requires v.nextId + 2 <= U64_SIZE && t == FinalAttempt(parts, a.answers, 1)
    ensures ReplyReads(parts, a, Produced(parts, v, a), Refused(parts, v, a), Signals(parts, v, a), t)
  {
    if Mine(parts, a.fact) {
      AnswerSays(parts, v, a, t);
      if Signals(parts, v, a) {
        SignalIsSignal(parts.breaker.value, v.nextId);
      }
    }
  }

  /** Every request of ours is answered: with success exactly when it did not ask within the window of an earlier
      signal, a gate is assembled and allowed it, and the last attempt succeeded. */
  lemma EveryReplyReads(parts: Parts, arrivals: seq<Arrival>, n: nat) returns (t: nat)
    requires n < |arrivals| && SubscriberRuns.Fits(arrivals) && Timed(arrivals)
    ensures LastAttempt(parts, arrivals[n].answers, t)
    ensures Sent(parts, arrivals, n + 1) == Sent(parts, arrivals, n) + Reply(parts, arrivals, n)
    ensures ReplyReads(parts, arrivals[n], Reply(parts, arrivals, n),
                       WithinWindow(parts, arrivals, n), SignalSent(parts, arrivals, n), t)
  {
    t := FinalAttempt(parts, arrivals[n].answers, 1);
    FinalIsLastAttempt(parts, arrivals[n].answers);
    ReplyIsProduced(parts, arrivals, n);
    SentIffSignals(parts, arrivals, n);
    RefusedIffWithinWindow(parts, arrivals, n);
    ProducedReads(parts, At(parts, arrivals, n), arrivals[n], t);
  }

  // ---------------------------------------------------------------- when a signal is sent

  /** The gate turned the request of arrival `n` down by a static route, and the breaker had let it through. */
  predicate Counted(parts: Parts, arrivals: seq<Arrival>, n: nat)
    requires n < |arrivals| && SubscriberRuns.Fits(arrivals)
  {
    var a := arrivals[n];
    && parts.breaker.Some? && a.fact.IoRequest? && !Skipped(parts, a.fact) && !WithinWindow(parts, arrivals, n)
    && parts.gated && a.ruling.verdict != Allow && a.ruling.route.Some?
  }

  /** The denial counted at `k` still counts at `now`, before arrival `n`: no signal has been sent from it on,
      and it lies in the closed window. */
  predicate StillCounts(parts: Parts, arrivals: seq<Arrival>, n: nat, now: nat, k: nat)
    requires n <= |arrivals| && SubscriberRuns.Fits(arrivals)
  {
    && k < n && Counted(parts, arrivals, k) && (forall s | k <= s < n :: !SignalSent(parts, arrivals, s))
    && arrivals[k].denied + parts.breaker.value.window >= now
  }

  function CountingAt(parts: Parts, arrivals: seq<Arrival>, n: nat, now: nat): set<nat>
    requires n <= |arrivals| && SubscriberRuns.Fits(arrivals)
  {
    set k | 0 <= k < n && StillCounts(parts, arrivals, n, now, k)
  }

  lemma CountedIffStatic(parts: Parts, arrivals: seq<Arrival>, n: nat)
    requires n < |arrivals| && SubscriberRuns.Fits(arrivals) && Timed(arrivals)
    ensures Counted(parts, arrivals, n) <==> StaticDenial(parts, At(parts, arrivals, n), arrivals[n])
  {
    RefusedIffWithinWindow(parts, arrivals, n);
  }

  lemma {:induction false} SinceTripOfPrefix(cfg: Config, calls: seq<Call>, longer: seq<Call>, n: nat)
    requires n <= |calls| && calls <= longer
    ensures SinceTrip(cfg, longer, n) == SinceTrip(cfg, calls, n)
  {
    if n > 0 {
      SinceTripOfPrefix(cfg, calls, longer, n - 1);
      assert longer[n - 1] == calls[n - 1];
    }
  }

  /** The denials since the last trip. */
  function Since(parts: Parts, arrivals: seq<Arrival>, n: nat): seq<nat>
    requires n <= |arrivals| && parts.breaker.Some?
  {
    SinceTrip(parts.breaker.value, Calls(parts, arrivals, n), |Calls(parts, arrivals, n)|)
  }

  /** The denials since the last trip, one arrival on. */
  lemma SinceTripOn(parts: Parts, arrivals: seq<Arrival>, n: nat)
    requires n < |arrivals| && parts.breaker.Some? && Timed(arrivals)
    ensures var (cfg, a, v) := (parts.breaker.value, arrivals[n], At(parts, arrivals, n));
            var (since, after) := (Since(parts, arrivals, n), Calls(parts, arrivals, n + 1));
            && Since(parts, arrivals, n + 1)
               == (if Signals(parts, v, a) then [] else if StaticDenial(parts, v, a) then since + [a.denied] else since)
            && (StaticDenial(parts, v, a) ==> |after| > 0 && SinceTrip(cfg, after, |after| - 1) == since)
  {
    var cfg, a, v := parts.breaker.value, arrivals[n], At(parts, arrivals, n);
    var before, after := Calls(parts, arrivals, n), Calls(parts, arrivals, n + 1);
    SignalsExactlyAtThreshold(parts, arrivals, n);
    SinceTripOfPrefix(cfg, before, after, |before|);
    if StaticDenial(parts, v, a) {
      assert after == before + [Check(a.asked), Deny(a.denied)];
      assert after[|before|] == Check(a.asked) && after[|before| + 1] == Deny(a.denied);
      assert SinceTrip(cfg, after, |before| + 1) == Since(parts, arrivals, n);
      assert ShouldTrip(cfg, after, |before| + 1) <==> Signals(parts, v, a);
      assert SinceTrip(cfg, after, |before| + 2)
          == if Signals(parts, v, a) then [] else Since(parts, arrivals, n) + [a.denied];
    } else if Mine(parts, a.fact) {
      assert after == before + [Check(a.asked)] && after[|before|] == Check(a.asked);
    } else {
      assert after == before;
    }
  }

  lemma CountingOn(parts: Parts, arrivals: seq<Arrival>, n: nat, now: nat)
    requires n < |arrivals| && SubscriberRuns.Fits(arrivals)
    ensures CountingAt(parts, arrivals, n + 1, now)
         == if SignalSent(parts, arrivals, n) then {}
            else CountingAt(parts, arrivals, n, now)
                 + if StillCounts(parts, arrivals, n + 1, now, n) then {n} else {}
  {
  }

  /** As many denials lie in the breaker's window as still count. */
  predicate AsMany(parts: Parts, arrivals: seq<Arrival>, n: nat, now: nat) {
    n <= |arrivals| && SubscriberRuns.Fits(arrivals) && parts.breaker.Some?
    && |InWindow(Since(parts, arrivals, n), now, parts.breaker.value.window)| == |CountingAt(parts, arrivals, n, now)|
  }

  lemma {:induction false} AsManyCount(parts: Parts, arrivals: seq<Arrival>, n: nat, now: nat)
    requires n <= |arrivals| && SubscriberRuns.Fits(arrivals) && Timed(arrivals) && parts.breaker.Some?
    ensures AsMany(parts, arrivals, n, now)
  {
    if n == 0 {
      NoneYet(parts, arrivals, now);
    } else {
      AsManyCount(parts, arrivals, n - 1, now);
      OneMoreCounts(parts, arrivals, n - 1, now);
    }
  }

  lemma NoneYet(parts: Parts, arrivals: seq<Arrival>, now: nat)
    requires SubscriberRuns.Fits(arrivals) && parts.breaker.Some?
    ensures AsMany(parts, arrivals, 0, now)
  {
    assert Since(parts, arrivals, 0) == [];
  }

  lemma OneMoreCounts(parts: Parts, arrivals: seq<Arrival>, n: nat, now: nat)
    requires n < |arrivals| && Timed(arrivals) && AsMany(parts, arrivals, n, now)
    ensures AsMany(parts, arrivals, n + 1, now)
  {
    SinceTripOn(parts, arrivals, n);
    CountingOn(parts, arrivals, n, now);
    SentIffSignals(parts, arrivals, n);
    CountedIffStatic(parts, arrivals, n);
    WindowSnoc(Since(parts, arrivals, n), arrivals[n].denied, now, parts.breaker.value.window);
    var counting := CountingAt(parts, arrivals, n, now);
    assert n !in counting;
  }

  lemma WindowSnoc(times: seq<nat>, last: nat, now: nat, window: nat)
    ensures InWindow(times + [last], now, window)
         == InWindow(times, now, window) + if last + window >= now then [last] else []
  {
    assert (times + [last])[..|times|] == times;
  }

  /** A signal is sent exactly for a counted denial with which the denials that still count reach the
      threshold; which denials count is itself read off the signals sent before. */
  lemma SignalIffEnoughCount(parts: Parts, arrivals: seq<Arrival>, n: nat)
    requires n < |arrivals| && SubscriberRuns.Fits(arrivals) && Timed(arrivals)
    ensures SignalSent(parts, arrivals, n) <==>
            && Counted(parts, arrivals, n) && parts.breaker.value.threshold > 0
            && |CountingAt(parts, arrivals, n, arrivals[n].denied)| + 1 >= parts.breaker.value.threshold
  {
    SentIffSignals(parts, arrivals, n);
    CountedIffStatic(parts, arrivals, n);
    if Counted(parts, arrivals, n) {
      SignalsExactlyAtThreshold(parts, arrivals, n);
      SinceTripOn(parts, arrivals, n);
      AsManyCount(parts, arrivals, n, arrivals[n].denied);
      LastCallIsDenial(parts, arrivals, n);
      ShouldTripMeans(parts.breaker.value, Calls(parts, arrivals, n + 1), arrivals[n].denied, Since(parts, arrivals, n));
    }
  }

  lemma ShouldTripMeans(cfg: Config, calls: seq<Call>, now: nat, since: seq<nat>)
    requires |calls| > 0 && calls[|calls| - 1] == Deny(now) && since == SinceTrip(cfg, calls, |calls| - 1)
    ensures ShouldTrip(cfg, calls, |calls| - 1) <==>
            cfg.threshold > 0 && |InWindow(since, now, cfg.window)| + 1 >= cfg.threshold
  {
  }

  lemma LastCallIsDenial(parts: Parts, arrivals: seq<Arrival>, n: nat)
    requires n < |arrivals| && StaticDenial(parts, At(parts, arrivals, n), arrivals[n])
    ensures var calls := Calls(parts, arrivals, n + 1);
            |calls| > 0 && calls[|calls| - 1] == Deny(arrivals[n].denied)
  {
  }

  // ---------------------------------------------------------------- the texts tell refusals apart

  /** A tripped breaker, a missing gate and a denial read differently, whatever the I/O types. */
  lemma RefusalsReadDifferently(tripped: string, ioType: string, missing: string,
                                denial: string, denied: string, r: Ruling)
    requires TellsTrip(tripped, ioType) && TellsMissingGate(missing) && TellsDenial(denial, denied, r)
    ensures tripped != missing && tripped != denial && denial != missing
  {
    assert "circuit breaker tripped"[0] == 'c' && tripped[0] == 'c';
    assert "permission gate"[0] == 'p' && "permission gate"[11] == 'g' && missing[0] == 'p' && missing[11] == 'g';
    assert "permission denied"[0] == 'p' && "permission denied"[11] == 'd' && denial[0] == 'p' && denial[11] == 'd';
  }

  lemma SameMiddle(front: string, x: string, y: string, back: string, whole: string)
    requires whole == front + x + back == front + y + back
    ensures x == y
  {
    assert x == whole[|front|..|whole| - |back|] == y;
  }

  /** The character before the resource is the last of the reason. */
  lemma SameReason(text: string, ioType: string, r: Ruling, other: Ruling)
    requires TellsDenial(text, ioType, r) && TellsDenial(text, ioType, other)
    ensures r.verdict == Reject <==> other.verdict == Reject
  {
    var end := |text| - |", resource=io:" + ioType| - 1;
    assert text[end] == ReasonText(r)[|ReasonText(r)| - 1];
    assert text[end] == ReasonText(other)[|ReasonText(other)| - 1];
  }

  /** Denials of the same I/O type read the same only for the same verdict and the same route. */
  lemma DenialsTell(text: string, ioType: string, r: Ruling, other: Ruling)
    requires TellsDenial(text, ioType, r) && TellsDenial(text, ioType, other)
    ensures (r.verdict == Reject <==> other.verdict == Reject) && r.route == other.route
  {
    SameReason(text, ioType, r, other);
    SameMiddle("permission denied", RouteText(r), RouteText(other),
               ": io_type=" + ioType + " " + ReasonText(r) + ", resource=io:" + ioType, text);
    if r.route.Some? && other.route.Some? {
      SameMiddle(" (route=", r.route.value, other.route.value, ")", RouteText(r));
    }
  }
}
