/** The session circuit breaker (evorule-governance/src/circuit_breaker.rs). Instants and durations are
    nanoseconds. */
module Breaker {
  import opened Base
  import opened Json

  const NANOS_PER_SEC: nat := 1_000_000_000

  type u32 = n: int | 0 <= n < 0x1_0000_0000

  /** A duration whose whole seconds fit an i64. */
  type Duration = n: int | 0 <= n <= I64_MAX * 1_000_000_000

  /** A threshold of zero switches the breaker off. */
  datatype Config = Config(threshold: u32, window: Duration)

  /** The queue of recent static denials, oldest first, and the instant until which everything is refused. */
  datatype BreakerView = BreakerView(denyTimes: seq<nat>, trippedUntil: Option<nat>)

  const FRESH: BreakerView := BreakerView([], None)

  predicate Tripped(b: BreakerView, now: nat) {
    b.trippedUntil.Some? && now < b.trippedUntil.value
  }

  /** Asking after the window has passed resets the breaker. */
  function Checked(b: BreakerView, now: nat): BreakerView {
    if b.trippedUntil.Some? && !Tripped(b, now) then FRESH else b
  }

  /** The queue without the old times at its front. */
  function DropOld(times: seq<nat>, now: nat, window: nat): seq<nat> {
    if times != [] && times[0] + window < now then DropOld(times[1..], now, window) else times
  }

  /** The queue once a denial at `now` has been added. */
  function Queued(cfg: Config, b: BreakerView, now: nat): seq<nat> {
    DropOld(b.denyTimes, now, cfg.window) + [now]
  }

  predicate Trips(cfg: Config, b: BreakerView, now: nat) {
    cfg.threshold > 0 && |Queued(cfg, b, now)| >= cfg.threshold
  }

  function Recorded(cfg: Config, b: BreakerView, now: nat): BreakerView {
    if cfg.threshold == 0 then b
    else if Trips(cfg, b, now) then BreakerView([], Some(now + cfg.window))
    else b.(denyTimes := Queued(cfg, b, now))
  }

  /** The queue stays below the threshold. */
  predicate Bounded(cfg: Config, b: BreakerView) {
    cfg.threshold > 0 ==> |b.denyTimes| < cfg.threshold
  }

  lemma {:induction false} DropOldIsShorter(times: seq<nat>, now: nat, window: nat)
    ensures |DropOld(times, now, window)| <= |times|
  {
    if times != [] && times[0] + window < now {
      DropOldIsShorter(times[1..], now, window);
    }
  }

  lemma StaysBounded(cfg: Config, b: BreakerView, now: nat)
    requires Bounded(cfg, b)
    ensures Bounded(cfg, Recorded(cfg, b, now)) && Bounded(cfg, Checked(b, now))
    ensures Trips(cfg, b, now) ==> |Queued(cfg, b, now)| == cfg.threshold
  {
    DropOldIsShorter(b.denyTimes, now, cfg.window);
  }

  /** The signal's value carries the threshold, the window in whole seconds and the count that tripped. */
  function SignalValue(cfg: Config, count: u32): JsonValue {
    Object(map["family" := String("off_allowlist_anchors"), "threshold" := Integer(cfg.threshold),
               "window_secs" := Integer(cfg.window / NANOS_PER_SEC), "count" := Integer(count)])
  }

  class CircuitState {
    const config: Config
    var denyTimes: seq<nat>
    var trippedUntil: Option<nat>

    function View(): BreakerView
      reads this
    {
      BreakerView(denyTimes, trippedUntil)
    }

    constructor (config: Config)
      ensures this.config == config && View() == FRESH
    {
      this.config := config;
      denyTimes, trippedUntil := [], None;
    }

    method IsTripped(now: nat) returns (tripped: bool)
      modifies this
      ensures tripped == Tripped(old(View()), now) && View() == Checked(old(View()), now)
    {
      if trippedUntil.Some? {
        if now < trippedUntil.value {
          return true;
        }
        trippedUntil := None;
        denyTimes := [];
      }
      return false;
    }

    /** Record a static denial; the signal, if this trips the breaker, always counts exactly the threshold. */
    method RecordDeny(now: nat) returns (signal: Option<JsonValue>)
      requires Bounded(config, View())
      modifies this
      ensures View() == Recorded(config, old(View()), now) && Bounded(config, View())
      ensures signal == if Trips(config, old(View()), now) then Some(SignalValue(config, config.threshold)) else None
    {
      StaysBounded(config, View(), now);
      if config.threshold == 0 {
        return None;
      }
      if now >= config.window {
        var cutoff := now - config.window;
        while denyTimes != [] && denyTimes[0] < cutoff
          invariant DropOld(denyTimes, now, config.window) == DropOld(old(denyTimes), now, config.window)
          invariant trippedUntil == old(trippedUntil)
          decreases |denyTimes|
        {
          denyTimes := denyTimes[1..];
        }
      }
      denyTimes := denyTimes + [now];
      if |denyTimes| < config.threshold {
        return None;
      }
      var count := |denyTimes|;
      trippedUntil := Some(now + config.window);
      denyTimes := [];
      return Some(SignalValue(config, count));
    }
  }

  // ---------------------------------------------------------------- histories of calls

  /** What the subscriber does to a breaker. */
  datatype Call = Check(now: nat) | Deny(now: nat)

  function After(cfg: Config, calls: seq<Call>, n: nat): BreakerView
    requires n <= |calls|
  {
    if n == 0 then FRESH
    else
      var b := After(cfg, calls, n - 1);
      match calls[n - 1]
      case Check(now) => Checked(b, now)
      case Deny(now) => Recorded(cfg, b, now)
  }

  /** Time does not run backwards. */
  predicate Timely(calls: seq<Call>) {
    forall i, j | 0 <= i < j < |calls| :: calls[i].now <= calls[j].now
  }

  /** A denial is recorded only right after a check that answered "not tripped". */
  predicate Disciplined(cfg: Config, calls: seq<Call>) {
    forall i | 0 <= i < |calls| && calls[i].Deny? :: CheckedBefore(cfg, calls, i)
  }

  predicate CheckedBefore(cfg: Config, calls: seq<Call>, i: nat)
    requires i < |calls|
  {
    i > 0 && calls[i - 1].Check? && !Tripped(After(cfg, calls, i - 1), calls[i - 1].now)
  }

  predicate TripsAt(cfg: Config, calls: seq<Call>, i: nat)
    requires i < |calls|
  {
    calls[i].Deny? && Trips(cfg, After(cfg, calls, i), calls[i].now)
  }

  // ---------------------------------------------------------------- the simple reading

  /** The times of all denials since the last that tripped, never pruned. */
  function SinceTrip(cfg: Config, calls: seq<Call>, n: nat): seq<nat>
    requires n <= |calls|
    decreases n, 0
  {
    if n == 0 then []
    else if calls[n - 1].Check? then SinceTrip(cfg, calls, n - 1)
    else if ShouldTrip(cfg, calls, n - 1) then []
    else SinceTrip(cfg, calls, n - 1) + [calls[n - 1].now]
  }

  /** The times that lie in the closed window ending now. */
  function InWindow(times: seq<nat>, now: nat, window: nat): seq<nat> {
    if times == [] then []
    else
      var last := times[|times| - 1];
      var front := InWindow(times[..|times| - 1], now, window);
      if last + window >= now then front + [last] else front
  }

  /** With this denial, those in the window since the last trip reach the threshold. */
  predicate ShouldTrip(cfg: Config, calls: seq<Call>, i: nat)
    requires i < |calls|
    decreases i, 1
  {
    calls[i].Deny? && cfg.threshold > 0
    && |InWindow(SinceTrip(cfg, calls, i), calls[i].now, cfg.window)| + 1 >= cfg.threshold
  }

  predicate Ascending(times: seq<nat>) {
    forall i, j | 0 <= i < j < |times| :: times[i] <= times[j]
  }

  /** In ascending times the window is a suffix, which is what dropping from the front leaves. */
  lemma {:induction false} WindowIsSuffix(times: seq<nat>, now: nat, window: nat)
    requires Ascending(times)
    ensures DropOld(times, now, window) == InWindow(times, now, window)
    decreases |times|
  {
    if times != [] {
      if times[0] + window < now {
        WindowIsSuffix(times[1..], now, window);
        FirstIsOld(times, now, window);
      } else {
        AllInWindow(times, now, window);
      }
    }
  }

  lemma {:induction false} FirstIsOld(times: seq<nat>, now: nat, window: nat)
    requires times != [] && times[0] + window < now
    ensures InWindow(times, now, window) == InWindow(times[1..], now, window)
  {
    var n := |times| - 1;
    if n > 0 {
      FirstIsOld(times[..n], now, window);
      assert times[1..][..n - 1] == times[..n][1..];
    } else {
      assert InWindow(times[..0], now, window) == [];
    }
  }

  lemma {:induction false} AllInWindow(times: seq<nat>, now: nat, window: nat)
    requires Ascending(times) && times != [] && times[0] + window >= now
    ensures InWindow(times, now, window) == times
  {
    var n := |times| - 1;
    assert times == times[..n] + [times[n]] && times[0] <= times[n];
    if n > 0 {
      AscendingFront(times, n);
      AllInWindow(times[..n], now, window);
    }
  }

  lemma AscendingFront(times: seq<nat>, n: nat)
    requires Ascending(times) && n <= |times|
    ensures Ascending(times[..n])
  {
  }

  /** Narrowing twice is narrowing to the later instant. */
  lemma {:induction false} WindowTwice(times: seq<nat>, early: nat, late: nat, window: nat)
    requires early <= late
    ensures InWindow(InWindow(times, early, window), late, window) == InWindow(times, late, window)
  {
    if times != [] {
      var n := |times| - 1;
      var front := InWindow(times[..n], early, window);
      WindowTwice(times[..n], early, late, window);
      if times[n] + window >= early {
        assert (front + [times[n]])[..|front|] == front;
      }
    }
  }

  lemma {:induction false} WindowKeepsAscending(times: seq<nat>, now: nat, window: nat)
    requires Ascending(times)
    ensures Ascending(InWindow(times, now, window)) && |InWindow(times, now, window)| <= |times|
    ensures forall i | 0 <= i < |InWindow(times, now, window)| :: InWindow(times, now, window)[i] in times
  {
    if times != [] {
      var n := |times| - 1;
      WindowKeepsAscending(times[..n], now, window);
      forall i | 0 <= i < |InWindow(times[..n], now, window)|
        ensures InWindow(times[..n], now, window)[i] <= times[n]
      {
        assert InWindow(times[..n], now, window)[i] in times[..n];
      }
    }
  }

  // ---------------------------------------------------------------- the queue and the simple reading agree

  /** The instant of the last recorded denial. */
  function LastDeny(calls: seq<Call>, n: nat): nat
    requires n <= |calls|
  {
    if n == 0 then 0 else if calls[n - 1].Deny? then calls[n - 1].now else LastDeny(calls, n - 1)
  }

  /** The queue is the window of the denials since the last trip, as of the last denial. */
  predicate Faithful(cfg: Config, b: BreakerView, since: seq<nat>, last: nat) {
    && b.denyTimes == InWindow(since, last, cfg.window)
    && |b.denyTimes| < cfg.threshold
    && (b.trippedUntil.Some? ==> since == [])
    && Ascending(since)
    && (forall k | 0 <= k < |since| :: since[k] <= last)
  }

  lemma {:induction false} LastDenyIsPast(calls: seq<Call>, n: nat, i: nat)
    requires Timely(calls) && n <= i < |calls|
    ensures LastDeny(calls, n) <= calls[i].now
  {
    if n > 0 && calls[n - 1].Check? {
      LastDenyIsPast(calls, n - 1, i);
    }
  }

  /** At a denial, the queue it joins is the window of the denials since the last trip. */
  lemma QueueIsWindow(cfg: Config, b: BreakerView, since: seq<nat>, last: nat, now: nat)
    requires Faithful(cfg, b, since, last) && last <= now
    ensures Queued(cfg, b, now) == InWindow(since, now, cfg.window) + [now]
    ensures |Queued(cfg, b, now)| <= cfg.threshold
  {
    WindowKeepsAscending(since, last, cfg.window);
    WindowIsSuffix(b.denyTimes, now, cfg.window);
    WindowTwice(since, last, now, cfg.window);
    WindowKeepsAscending(b.denyTimes, now, cfg.window);
  }

  lemma InWindowSnoc(times: seq<nat>, now: nat, window: nat)
    ensures InWindow(times + [now], now, window) == InWindow(times, now, window) + [now]
  {
    assert (times + [now])[..|times|] == times;
  }

  lemma DenyKeepsFaithful(cfg: Config, b: BreakerView, since: seq<nat>, last: nat, now: nat)
    requires cfg.threshold > 0 && Faithful(cfg, b, since, last) && last <= now && b.trippedUntil.None?
    ensures Faithful(cfg, Recorded(cfg, b, now), if Trips(cfg, b, now) then [] else since + [now], now)
  {
    QueueIsWindow(cfg, b, since, last, now);
    InWindowSnoc(since, now, cfg.window);
  }

  lemma CheckKeepsFaithful(cfg: Config, b: BreakerView, since: seq<nat>, last: nat, now: nat)
    requires Faithful(cfg, b, since, last)
    ensures Faithful(cfg, Checked(b, now), since, last)
  {
  }

  lemma DeniedWhileOpen(cfg: Config, calls: seq<Call>, i: nat)
    requires Disciplined(cfg, calls) && i < |calls| && calls[i].Deny?
    ensures After(cfg, calls, i).trippedUntil.None?
  {
    assert CheckedBefore(cfg, calls, i);
  }

  lemma {:induction false} EveryPrefixIsFaithful(cfg: Config, calls: seq<Call>, n: nat)
    requires cfg.threshold > 0 && Timely(calls) && Disciplined(cfg, calls) && n <= |calls|
    ensures Faithful(cfg, After(cfg, calls, n), SinceTrip(cfg, calls, n), LastDeny(calls, n))
  {
    if n > 0 {
      EveryPrefixIsFaithful(cfg, calls, n - 1);
      var b, since, last := After(cfg, calls, n - 1), SinceTrip(cfg, calls, n - 1), LastDeny(calls, n - 1);
      var now := calls[n - 1].now;
      if calls[n - 1].Deny? {
        LastDenyIsPast(calls, n - 1, n - 1);
        DeniedWhileOpen(cfg, calls, n - 1);
        QueueIsWindow(cfg, b, since, last, now);
        DenyKeepsFaithful(cfg, b, since, last, now);
      } else {
        CheckKeepsFaithful(cfg, b, since, last, now);
      }
    }
  }

  /** A trip is reported exactly when, with this denial, the denials since the last trip that lie in the
      closed window reach the threshold; and the reported count is always the threshold. */
  lemma TripsExactlyAtThreshold(cfg: Config, calls: seq<Call>, i: nat)
    requires Timely(calls) && Disciplined(cfg, calls) && i < |calls|
    ensures TripsAt(cfg, calls, i) <==> ShouldTrip(cfg, calls, i)
    ensures TripsAt(cfg, calls, i) ==> |Queued(cfg, After(cfg, calls, i), calls[i].now)| == cfg.threshold
  {
    if cfg.threshold > 0 && calls[i].Deny? {
      EveryPrefixIsFaithful(cfg, calls, i);
      LastDenyIsPast(calls, i, i);
      QueueIsWindow(cfg, After(cfg, calls, i), SinceTrip(cfg, calls, i), LastDeny(calls, i), calls[i].now);
    }
  }

  /** After a denial, or a check that answered "tripped", the next call is a check. */
  lemma NextIsCheck(cfg: Config, calls: seq<Call>, m: nat)
    requires Disciplined(cfg, calls) && 0 < m < |calls|
    requires calls[m - 1].Deny? || Tripped(After(cfg, calls, m - 1), calls[m - 1].now)
    ensures calls[m].Check?
  {
  }

  /** From a trip until its window has passed, every call is a check and every check answers "tripped"; in
      particular two trips are at least a window apart. */
  lemma {:induction false} RefusesThroughWindow(cfg: Config, calls: seq<Call>, i: nat, m: nat)
    requires Timely(calls) && Disciplined(cfg, calls) && i < m < |calls| && TripsAt(cfg, calls, i)
    requires calls[m].now < calls[i].now + cfg.window
    ensures After(cfg, calls, m).trippedUntil == Some(calls[i].now + cfg.window)
    ensures calls[m].Check? && Tripped(After(cfg, calls, m), calls[m].now)
    decreases m
  {
    if m > i + 1 {
      RefusesThroughWindow(cfg, calls, i, m - 1);
    }
    NextIsCheck(cfg, calls, m);
  }

  /** Once the window has passed, the next check opens the breaker with an empty queue. */
  lemma ResetsAfterWindow(cfg: Config, calls: seq<Call>, i: nat)
    requires i + 1 < |calls| && TripsAt(cfg, calls, i) && calls[i + 1].Check?
    requires calls[i + 1].now >= calls[i].now + cfg.window
    ensures !Tripped(After(cfg, calls, i + 1), calls[i + 1].now) && After(cfg, calls, i + 2) == FRESH
  {
  }
}
