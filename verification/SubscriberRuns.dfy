/** Whole runs of the I/O subscriber. */
module SubscriberRuns {
  import opened Base
  import opened Json
  import opened Facts
  import opened Breaker
  import opened Subscriber

  /** The ids of a run fit a u64. */
  predicate Fits(arrivals: seq<Arrival>) {
    ID_OFFSET + 2 * |arrivals| <= U64_SIZE
  }

  /** The subscriber after the first `n` arrivals. */
  function At(parts: Parts, arrivals: seq<Arrival>, n: nat): (v: View)
    requires n <= |arrivals|
    ensures ID_OFFSET <= v.nextId <= ID_OFFSET + 2 * n
  {
    if n == 0 then START else ViewAfter(parts, At(parts, arrivals, n - 1), arrivals[n - 1])
  }

  /** Everything sent for the first `n` arrivals. */
  function Sent(parts: Parts, arrivals: seq<Arrival>, n: nat): seq<Fact>
    requires n <= |arrivals| && Fits(arrivals)
  {
    if n == 0 then []
    else Sent(parts, arrivals, n - 1) + Produced(parts, At(parts, arrivals, n - 1), arrivals[n - 1])
  }

  /** The first of ours among the arrivals from `n` on. */
  function NextMine(parts: Parts, arrivals: seq<Arrival>, n: nat): (i: nat)
    ensures n <= |arrivals| ==> n <= i <= |arrivals|
    ensures forall j | n <= j < i && j < |arrivals| :: !Mine(parts, arrivals[j].fact)
    ensures i < |arrivals| ==> Mine(parts, arrivals[i].fact)
    decreases |arrivals| - n
  {
    if n >= |arrivals| || Mine(parts, arrivals[n].fact) then n else NextMine(parts, arrivals, n + 1)
  }

  /** Arrival `n` of a run whose receiver goes away before arrival `closesAt`. */
  method HandleNext(sub: IoSubscriber, arrivals: seq<Arrival>, n: nat, channel: FactSender, closesAt: nat) returns (ok: bool)
    requires sub.Valid() && n < |arrivals| && sub.Current() == At(sub.parts, arrivals, n) && Fits(arrivals)
    requires channel.open <==> n <= closesAt
    modifies sub, sub.circuit, channel
    ensures sub.Valid() && sub.Current() == At(sub.parts, arrivals, n + 1)
    ensures channel.open <==> n + 1 <= closesAt
    ensures n < closesAt ==> channel.sent == old(channel.sent) + Produced(sub.parts, At(sub.parts, arrivals, n), arrivals[n])
    ensures n >= closesAt ==> channel.sent == old(channel.sent)
    ensures ok <==> n < closesAt || !Mine(sub.parts, arrivals[n].fact)
  {
    if n == closesAt {
      channel.Close();
    }
    var answered, _ := sub.HandleFact(arrivals[n], channel);
    ok := answered;
  }

  /** The subscriber object over a whole run, whose receiver goes away before arrival `closesAt`: it sends
      exactly what is specified up to there, and fails at the first request of ours from there on. */
  method HandleAll(sub: IoSubscriber, arrivals: seq<Arrival>, channel: FactSender, closesAt: nat) returns (failedAt: Option<nat>)
    requires sub.Valid() && sub.Current() == START && Fits(arrivals)
    requires channel.open && channel.sent == []
    modifies sub, sub.circuit, channel
    ensures channel.sent == Sent(sub.parts, arrivals, if closesAt < |arrivals| then closesAt else |arrivals|)
    ensures failedAt == if NextMine(sub.parts, arrivals, closesAt) < |arrivals|
                        then Some(NextMine(sub.parts, arrivals, closesAt)) else None
    ensures sub.Valid()
    ensures sub.Current() == At(sub.parts, arrivals, if failedAt.Some? then failedAt.value + 1 else |arrivals|)
  {
    for n := 0 to |arrivals|
      invariant sub.Valid() && sub.Current() == At(sub.parts, arrivals, n)
      invariant channel.open <==> n <= closesAt
      invariant channel.sent == Sent(sub.parts, arrivals, if closesAt < n then closesAt else n)
      invariant closesAt < n ==> NextMine(sub.parts, arrivals, n) == NextMine(sub.parts, arrivals, closesAt)
    {
      var ok := HandleNext(sub, arrivals, n, channel, closesAt);
      if !ok {
        return Some(n);
      }
    }
    return None;
  }

  // ---------------------------------------------------------------- ids and responses

  /** The ids sent are consecutive from 10000. */
  lemma {:induction false} IdsAreConsecutive(parts: Parts, arrivals: seq<Arrival>, n: nat)
    requires n <= |arrivals| && Fits(arrivals)
    ensures |Sent(parts, arrivals, n)| == At(parts, arrivals, n).nextId - ID_OFFSET
    ensures forall i | 0 <= i < |Sent(parts, arrivals, n)| :: Sent(parts, arrivals, n)[i].id == ID_OFFSET + i
  {
    if n > 0 {
      IdsAreConsecutive(parts, arrivals, n - 1);
      ProducedIds(parts, At(parts, arrivals, n - 1), arrivals[n - 1]);
    }
  }

  lemma ProducedIds(parts: Parts, v: View, a: Arrival)
    requires v.nextId + 2 <= U64_SIZE
    ensures |Produced(parts, v, a)| == ViewAfter(parts, v, a).nextId - v.nextId
    ensures forall i | 0 <= i < |Produced(parts, v, a)| :: Produced(parts, v, a)[i].id == v.nextId + i
  {
  }

  /** The requests that some facts respond to, in order. */
  function AnsweredBy(facts: seq<Fact>): seq<FactId> {
    if facts == [] then []
    else
      var front, last := AnsweredBy(facts[..|facts| - 1]), facts[|facts| - 1];
      if last.IoResponse? then front + [last.requestId] else front
  }

  lemma {:induction false} AnsweredByConcat(a: seq<Fact>, b: seq<Fact>)
    ensures AnsweredBy(a + b) == AnsweredBy(a) + AnsweredBy(b)
  {
    if b == [] {
      assert a + b == a;
    } else {
      assert (a + b)[..|a + b| - 1] == a + b[..|b| - 1];
      AnsweredByConcat(a, b[..|b| - 1]);
    }
  }

  /** The requests of ours among the first `n` arrivals, in order. */
  function Asked(parts: Parts, arrivals: seq<Arrival>, n: nat): seq<FactId>
    requires n <= |arrivals|
  {
    if n == 0 then []
    else
      var front, last := Asked(parts, arrivals, n - 1), arrivals[n - 1].fact;
      if Mine(parts, last) then front + [last.id] else front
  }

  lemma ProducedAnswersOnce(parts: Parts, v: View, a: Arrival)
    requires v.nextId + 2 <= U64_SIZE
    ensures AnsweredBy(Produced(parts, v, a)) == if Mine(parts, a.fact) then [a.fact.id] else []
  {
    if Mine(parts, a.fact) {
      var facts := Produced(parts, v, a);
      var (result, error) := Answer(parts, v, a);
      AnsweredByConcat(facts[..|facts| - 1], [facts[|facts| - 1]]);
      assert facts == facts[..|facts| - 1] + [facts[|facts| - 1]];
      assert AnsweredBy([]) == [];
      assert [facts[|facts| - 1]][..0] == [];
      if Signals(parts, v, a) {
        assert facts[..1] == [facts[0]] && [facts[0]][..0] == [];
      } else {
        assert facts[..0] == [];
      }
    }
  }

  /** Every request of ours gets exactly one response, in the order of the requests; nothing else is answered. */
  lemma {:induction false} EveryRequestIsAnsweredOnce(parts: Parts, arrivals: seq<Arrival>, n: nat)
    requires n <= |arrivals| && Fits(arrivals)
    ensures AnsweredBy(Sent(parts, arrivals, n)) == Asked(parts, arrivals, n)
  {
    if n > 0 {
      EveryRequestIsAnsweredOnce(parts, arrivals, n - 1);
      var v := At(parts, arrivals, n - 1);
      ProducedAnswersOnce(parts, v, arrivals[n - 1]);
      AnsweredByConcat(Sent(parts, arrivals, n - 1), Produced(parts, v, arrivals[n - 1]));
    }
  }

  /** The dispatcher is tried once more exactly after each transient error, up to the fourth attempt. */
  lemma {:induction false} RetriesOnlyTransients(parts: Parts, answers: nat -> Result<JsonValue, string>, attempt: nat)
    requires 1 <= attempt <= MAX_RETRIES + 1
    ensures var n := FinalAttempt(parts, answers, attempt);
            && (forall k | attempt <= k < n :: answers(k).Err? && parts.retryable(answers(k).error))
            && (answers(n).Ok? || !parts.retryable(answers(n).error) || n == 4)
    decreases MAX_RETRIES + 1 - attempt
  {
    if answers(attempt).Err? && attempt <= MAX_RETRIES && parts.retryable(answers(attempt).error) {
      RetriesOnlyTransients(parts, answers, attempt + 1);
    }
  }

  // ---------------------------------------------------------------- the breaker inside a run

  /** Clock readings do not run backwards. */
  predicate Timed(arrivals: seq<Arrival>) {
    && (forall i | 0 <= i < |arrivals| :: arrivals[i].asked <= arrivals[i].denied)
    && (forall i, j | 0 <= i < j < |arrivals| :: arrivals[i].denied <= arrivals[j].asked)
  }

  /** What one arrival does to the breaker. */
  function CallsFor(parts: Parts, v: View, a: Arrival): seq<Call> {
    if !Mine(parts, a.fact) || parts.breaker.None? then []
    else if StaticDenial(parts, v, a) then [Check(a.asked), Deny(a.denied)]
    else [Check(a.asked)]
  }

  function Calls(parts: Parts, arrivals: seq<Arrival>, n: nat): seq<Call>
    requires n <= |arrivals|
  {
    if n == 0 then []
    else Calls(parts, arrivals, n - 1) + CallsFor(parts, At(parts, arrivals, n - 1), arrivals[n - 1])
  }

  lemma {:induction false} AfterOfPrefix(cfg: Config, calls: seq<Call>, longer: seq<Call>, n: nat)
    requires n <= |calls| && calls <= longer
    ensures After(cfg, longer, n) == After(cfg, calls, n)
  {
    if n > 0 {
      AfterOfPrefix(cfg, calls, longer, n - 1);
      assert longer[n - 1] == calls[n - 1];
    }
  }

  lemma AfterSnoc(cfg: Config, front: seq<Call>, call: Call)
    ensures After(cfg, front + [call], |front| + 1) == (match call
              case Check(now) => Checked(After(cfg, front, |front|), now)
              case Deny(now) => Recorded(cfg, After(cfg, front, |front|), now))
  {
    AfterOfPrefix(cfg, front, front + [call], |front|);
  }

  lemma CallsForFollow(parts: Parts, v: View, a: Arrival, front: seq<Call>)
    requires parts.breaker.Some? && After(parts.breaker.value, front, |front|) == v.breaker
    ensures var all := front + CallsFor(parts, v, a);
            After(parts.breaker.value, all, |all|) == ViewAfter(parts, v, a).breaker
  {
    var cfg := parts.breaker.value;
    if !Mine(parts, a.fact) {
      assert front + [] == front;
    } else {
      AfterSnoc(cfg, front, Check(a.asked));
      if StaticDenial(parts, v, a) {
        AfterSnoc(cfg, front + [Check(a.asked)], Deny(a.denied));
        assert front + [Check(a.asked)] + [Deny(a.denied)] == front + [Check(a.asked), Deny(a.denied)];
      }
    }
  }

  /** The breaker of a run is the breaker after its calls. */
  lemma {:induction false} BreakerFollowsCalls(parts: Parts, arrivals: seq<Arrival>, n: nat)
    requires n <= |arrivals| && parts.breaker.Some?
    ensures var calls := Calls(parts, arrivals, n);
            After(parts.breaker.value, calls, |calls|) == At(parts, arrivals, n).breaker
  {
    if n > 0 {
      BreakerFollowsCalls(parts, arrivals, n - 1);
      CallsForFollow(parts, At(parts, arrivals, n - 1), arrivals[n - 1], Calls(parts, arrivals, n - 1));
    }
  }

  lemma {:induction false} CallsAreDisciplined(parts: Parts, arrivals: seq<Arrival>, n: nat)
    requires n <= |arrivals| && parts.breaker.Some?
    ensures Disciplined(parts.breaker.value, Calls(parts, arrivals, n))
  {
    if n > 0 {
      CallsAreDisciplined(parts, arrivals, n - 1);
      BreakerFollowsCalls(parts, arrivals, n - 1);
      DisciplinedConcat(parts, At(parts, arrivals, n - 1), arrivals[n - 1], Calls(parts, arrivals, n - 1));
    }
  }

  lemma CheckedBeforePrefix(cfg: Config, front: seq<Call>, call: Call, i: nat)
    requires i < |front|
    ensures CheckedBefore(cfg, front + [call], i) == CheckedBefore(cfg, front, i)
  {
    var all := front + [call];
    assert all[i] == front[i];
    if i > 0 {
      assert all[i - 1] == front[i - 1];
      AfterOfPrefix(cfg, front, all, i - 1);
    }
  }

  lemma DisciplinedSnoc(cfg: Config, front: seq<Call>, call: Call)
    requires Disciplined(cfg, front) && (call.Deny? ==> CheckedBefore(cfg, front + [call], |front|))
    ensures Disciplined(cfg, front + [call])
  {
    var all := front + [call];
    forall i | 0 <= i < |all| && all[i].Deny?
      ensures CheckedBefore(cfg, all, i)
    {
      if i < |front| {
        assert CheckedBefore(cfg, front, i);
        CheckedBeforePrefix(cfg, front, call, i);
      }
    }
  }

  lemma DisciplinedConcat(parts: Parts, v: View, a: Arrival, front: seq<Call>)
    requires parts.breaker.Some? && Disciplined(parts.breaker.value, front)
    requires After(parts.breaker.value, front, |front|) == v.breaker
    ensures Disciplined(parts.breaker.value, front + CallsFor(parts, v, a))
  {
    var cfg := parts.breaker.value;
    if !Mine(parts, a.fact) {
      assert front + [] == front;
    } else {
      var asked := front + [Check(a.asked)];
      DisciplinedSnoc(cfg, front, Check(a.asked));
      if StaticDenial(parts, v, a) {
        var all := asked + [Deny(a.denied)];
        AfterOfPrefix(cfg, front, all, |front|);
        assert all[|front|] == Check(a.asked);
        assert CheckedBefore(cfg, all, |asked|);
        DisciplinedSnoc(cfg, asked, Deny(a.denied));
        assert all == front + [Check(a.asked), Deny(a.denied)];
      }
    }
  }

  /** No call is later than `now`. */
  predicate UpTo(calls: seq<Call>, now: nat) {
    forall i | 0 <= i < |calls| :: calls[i].now <= now
  }

  lemma TimelyConcat(parts: Parts, v: View, a: Arrival, front: seq<Call>)
    requires Timely(front) && UpTo(front, a.asked) && a.asked <= a.denied
    ensures Timely(front + CallsFor(parts, v, a)) && UpTo(front + CallsFor(parts, v, a), a.denied)
  {
  }

  lemma UpToLater(calls: seq<Call>, early: nat, late: nat)
    requires UpTo(calls, early) && early <= late
    ensures UpTo(calls, late)
  {
  }

  lemma {:induction false} CallsAreTimely(parts: Parts, arrivals: seq<Arrival>, n: nat)
    requires n <= |arrivals| && Timed(arrivals)
    ensures Timely(Calls(parts, arrivals, n))
    ensures n > 0 ==> UpTo(Calls(parts, arrivals, n), arrivals[n - 1].denied)
  {
    if n > 0 {
      var front := Calls(parts, arrivals, n - 1);
      CallsAreTimely(parts, arrivals, n - 1);
      if n > 1 {
        UpToLater(front, arrivals[n - 2].denied, arrivals[n - 1].asked);
      }
      TimelyConcat(parts, At(parts, arrivals, n - 1), arrivals[n - 1], front);
    }
  }

  /** A signal is a trip at the last call that the arrival makes. */
  lemma SignalIsTrip(parts: Parts, v: View, a: Arrival, front: seq<Call>)
    requires parts.breaker.Some? && StaticDenial(parts, v, a)
    requires After(parts.breaker.value, front, |front|) == v.breaker
    ensures var all := front + CallsFor(parts, v, a);
            |all| == |front| + 2 && (Signals(parts, v, a) <==> TripsAt(parts.breaker.value, all, |all| - 1))
  {
    var cfg := parts.breaker.value;
    var asked := front + [Check(a.asked)];
    var all := front + CallsFor(parts, v, a);
    AfterSnoc(cfg, front, Check(a.asked));
    assert all == asked + [Deny(a.denied)] && all[|asked|] == Deny(a.denied);
    AfterOfPrefix(cfg, asked, all, |asked|);
  }

  /** A trip signal is sent for an arrival exactly when it is a static denial with which the denials since the
      last trip that lie in the closed window reach the threshold. */
  lemma {:induction false} SignalsExactlyAtThreshold(parts: Parts, arrivals: seq<Arrival>, n: nat)
    requires n < |arrivals| && parts.breaker.Some? && Timed(arrivals)
    ensures var calls := Calls(parts, arrivals, n + 1);
            Signals(parts, At(parts, arrivals, n), arrivals[n]) <==>
            StaticDenial(parts, At(parts, arrivals, n), arrivals[n])
            && |calls| > 0 && ShouldTrip(parts.breaker.value, calls, |calls| - 1)
  {
    var v := At(parts, arrivals, n);
    if StaticDenial(parts, v, arrivals[n]) {
      var calls := Calls(parts, arrivals, n + 1);
      BreakerFollowsCalls(parts, arrivals, n);
      SignalIsTrip(parts, v, arrivals[n], Calls(parts, arrivals, n));
      CallsAreDisciplined(parts, arrivals, n + 1);
      CallsAreTimely(parts, arrivals, n + 1);
      TripsExactlyAtThreshold(parts.breaker.value, calls, |calls| - 1);
    }
  }

  /** From a signal until its window has passed, every request of ours is refused; so signals are at least a
      window apart. */
  lemma {:induction false} RefusedThroughWindow(parts: Parts, arrivals: seq<Arrival>, s: nat, n: nat)
    requires s < n < |arrivals| && Timed(arrivals) && Signals(parts, At(parts, arrivals, s), arrivals[s])
    requires arrivals[n].asked < arrivals[s].denied + parts.breaker.value.window
    ensures At(parts, arrivals, n).breaker.trippedUntil == Some(arrivals[s].denied + parts.breaker.value.window)
    ensures Refused(parts, At(parts, arrivals, n), arrivals[n])
    decreases n
  {
    if n > s + 1 {
      assert arrivals[n - 1].asked <= arrivals[n].asked;
      RefusedThroughWindow(parts, arrivals, s, n - 1);
    }
  }

  lemma {:induction false} SignalsAreAWindowApart(parts: Parts, arrivals: seq<Arrival>, s: nat, n: nat)
    requires s < n < |arrivals| && Timed(arrivals)
    requires Signals(parts, At(parts, arrivals, s), arrivals[s]) && Signals(parts, At(parts, arrivals, n), arrivals[n])
    ensures arrivals[n].denied >= arrivals[s].denied + parts.breaker.value.window
  {
    if arrivals[n].asked < arrivals[s].denied + parts.breaker.value.window {
      RefusedThroughWindow(parts, arrivals, s, n);
    }
  }
}
