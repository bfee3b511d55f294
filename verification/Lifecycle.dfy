/** Restart decisions and their delays. */
module Lifecycle {
  import opened Prelude
  import Plan

  const U32_MAX := 0xFFFF_FFFF

  const U64_MAX := 0xFFFF_FFFF_FFFF_FFFF

  // ── Durations, in nanoseconds ─────────────────────────────────────────────

  const SECOND := 1_000_000_000

  const MAX_DURATION := U64_MAX * SECOND + (SECOND - 1)

  type Duration = d: int | 0 <= d <= MAX_DURATION

  type u32 = n: int | 0 <= n <= U32_MAX

  function CheckedMul(d: Duration, n: u32): Option<Duration> {
    if d * n <= MAX_DURATION then Some(d * n) else None
  }

  function Pow2(n: nat): (p: nat)
    ensures p >= 1
  {
    if n == 0 then 1 else 2 * Pow2(n - 1)
  }

  /** 1 shifted left in 64 bits, refused when the shift is as wide as the number. */
  function CheckedShl(n: u32): Option<nat> {
    if n < 64 then Some(Pow2(n)) else None
  }

  function AsU32(n: nat): Option<u32> {
    if n <= U32_MAX then Some(n) else None
  }

  function OrElse<T>(o: Option<T>, otherwise: T): T {
    if o.Some? then o.value else otherwise
  }

  function BackoffForAttempt(delay: Duration, maxDelay: Duration, attempt: u32): Duration {
    var factor := OrElse(CheckedShl(attempt), U64_MAX);
    var wait := OrElse(CheckedMul(delay, OrElse(AsU32(factor), U32_MAX)), maxDelay);
    Min(wait, maxDelay)
  }

  /** What the documentation promises. */
  function ClosedForm(delay: Duration, maxDelay: Duration, attempt: u32): Duration {
    if delay * Pow2(attempt) <= maxDelay then delay * Pow2(attempt) else maxDelay
  }

  // ── The backoff ───────────────────────────────────────────────────────────

  lemma {:induction false} Pow2Sum(a: nat, b: nat)
    ensures Pow2(a + b) == Pow2(a) * Pow2(b)
  {
    if a > 0 {
      Pow2Sum(a - 1, b);
      calc {
        Pow2(a + b);
        2 * Pow2(a - 1 + b);
        2 * (Pow2(a - 1) * Pow2(b));
        2 * Pow2(a - 1) * Pow2(b);
      }
    }
  }

  lemma {:induction false} Pow2Grows(a: nat, b: nat)
    requires a <= b
    ensures Pow2(a) <= Pow2(b)
    decreases b - a
  {
    if a < b {
      Pow2Grows(a, b - 1);
    }
  }

  lemma Pow2Of32()
    ensures Pow2(32) == U32_MAX + 1
  {
    assert Pow2(8) == 256;
    assert Pow2(16) == 65536 by { Pow2Sum(8, 8); }
    assert 65536 * 65536 == U32_MAX + 1;
    Pow2Sum(16, 16);
  }

  /** The factor is exact below 32 attempts and the largest 32-bit number from there on. */
  function Factor(attempt: u32): u32 {
    OrElse(AsU32(OrElse(CheckedShl(attempt), U64_MAX)), U32_MAX)
  }

  lemma FactorIs(attempt: u32)
    ensures Factor(attempt) == if attempt < 32 then Pow2(attempt) else U32_MAX
    ensures attempt >= 32 ==> Pow2(attempt) > U32_MAX
  {
    Pow2Of32();
    if attempt < 32 {
      Pow2Grows(attempt, 31);
    } else {
      Pow2Grows(32, attempt);
    }
  }

  lemma FactorGrows(a: u32, b: u32)
    requires a <= b
    ensures 1 <= Factor(a) <= Factor(b)
  {
    FactorIs(a);
    FactorIs(b);
    if b < 32 {
      Pow2Grows(a, b);
    } else if a < 32 {
      Pow2Of32();
      Pow2Grows(a, 31);
    }
  }

  lemma Scale(d: nat, a: nat, b: nat)
    requires a <= b
    ensures d * a <= d * b
    ensures d > 0 && a < b ==> d * a < d * b
  {
  }

  /**
   The documented closed form holds at an attempt exactly when the shift did
   not leave 32 bits, or what the largest factor gives has reached the ceiling,
   or there is no delay at all.
   */
  lemma ClosedFormHoldsExactlyWhen(delay: Duration, maxDelay: Duration, attempt: u32)
    ensures BackoffForAttempt(delay, maxDelay, attempt) == ClosedForm(delay, maxDelay, attempt)
       <==> attempt < 32 || delay == 0 || delay * 4_294_967_295 >= maxDelay
  {
    FactorIs(attempt);
    if attempt >= 32 {
      Scale(delay, U32_MAX, Pow2(attempt));
    }
  }

  /** One nanosecond, doubled up to ten seconds: the fortieth attempt waits less than half of that. */
  lemma TinyDelaysStopShort()
    ensures BackoffForAttempt(1, 10_000_000_000, 40) == 4_294_967_295
    ensures ClosedForm(1, 10_000_000_000, 40) == 10_000_000_000
  {
    FactorIs(40);
    Pow2Of32();
    assert Pow2(8) == 256;
    Pow2Sum(32, 8);
  }

  /** The ranges a configuration is held to: from 100 ms to an hour, and to a day for the ceiling. */
  predicate ValidDelays(delay: Duration, maxDelay: Duration) {
    && 100_000_000 <= delay <= 3_600_000_000_000 && 100_000_000 <= maxDelay <= 86_400_000_000_000
    && delay <= maxDelay
  }

  /** For every validated service and every attempt the delay is the documented one. */
  lemma ValidDelaysDouble(delay: Duration, maxDelay: Duration, attempt: u32)
    requires ValidDelays(delay, maxDelay)
    ensures BackoffForAttempt(delay, maxDelay, attempt) == ClosedForm(delay, maxDelay, attempt)
  {
    Scale(U32_MAX, 100_000_000, delay);
    ClosedFormHoldsExactlyWhen(delay, maxDelay, attempt);
  }

  /** Later attempts never wait less, whatever the delays. */
  lemma BackoffNeverShrinks(delay: Duration, maxDelay: Duration, a: u32, b: u32)
    requires a <= b
    ensures BackoffForAttempt(delay, maxDelay, a) <= BackoffForAttempt(delay, maxDelay, b) <= maxDelay
  {
    FactorGrows(a, b);
    Scale(delay, Factor(a), Factor(b));
  }

  // ── Decisions ─────────────────────────────────────────────────────────────

  datatype ExitReason = Code(code: int) | Signal(signal: int) | SpawnFailure(retryable: bool) | Unhealthy

  datatype ShutdownReason =
    UserInterrupt | Terminated | HangUp | RestartLimit | StackFailure | FailedHealth | Requested

  predicate IsUserRequested(reason: ShutdownReason) {
    reason.UserInterrupt? || reason.Terminated? || reason.HangUp? || reason.Requested?
  }

  datatype Outcome = Outcome(reason: ExitReason, uptime: Duration)

  datatype Decision = Restart(delay: Duration, attempt: u32) | Stop | Fail(reason: ShutdownReason)

  datatype Settings = Settings(
    policy: Plan.RestartPolicy, delay: Duration, maxDelay: Duration, maxRestarts: u32, stableAfter: Duration)

  predicate ShouldRestart(policy: Plan.RestartPolicy, reason: ExitReason) {
    match policy
    case Never => false
    case Always => reason.SpawnFailure? ==> reason.retryable
    case UnlessStopped => reason.SpawnFailure? ==> reason.retryable
    case OnFailure =>
      match reason
      case Code(code) => code != 0
      case Signal(_) => true
      case Unhealthy => true
      case SpawnFailure(retryable) => retryable
  }

  predicate BudgetLeft(maxRestarts: u32, attempts: u32) {
    maxRestarts == 0 || attempts < maxRestarts
  }

  function SaturatingAdd(a: u32, b: u32): u32 {
    if a + b <= U32_MAX then a + b else U32_MAX
  }

  /** One run of the process coming to its end. */
  datatype End = End(outcome: Outcome, shutdown: Option<ShutdownReason>)

  predicate ByUser(e: End) {
    e.shutdown.Some? && IsUserRequested(e.shutdown.value)
  }

  /** A run long enough to begin a new budget. */
  predicate Renews(s: Settings, e: End) {
    !ByUser(e) && e.outcome.uptime >= s.stableAfter
  }

  class RestartTracker {
    const settings: Settings
    var attempts: u32

    constructor (settings: Settings)
      ensures this.settings == settings && attempts == 0
    {
      this.settings := settings;
      attempts := 0;
    }

    method Decide(outcome: Outcome, shutdown: Option<ShutdownReason>) returns (d: Decision)
      modifies this
      ensures d == DecisionFor(settings, old(attempts), End(outcome, shutdown))
      ensures attempts == AttemptsAfter(settings, old(attempts), End(outcome, shutdown))
    {
      if shutdown.Some? {
        if IsUserRequested(shutdown.value) {
          return Stop;
        }
      }
      if outcome.uptime >= settings.stableAfter {
        attempts := 0;
      }
      if !ShouldRestart(settings.policy, outcome.reason) {
        return Stop;
      }
      if !BudgetLeft(settings.maxRestarts, attempts) {
        return Fail(RestartLimit);
      }
      var delay := BackoffForAttempt(settings.delay, settings.maxDelay, attempts);
      attempts := SaturatingAdd(attempts, 1);
      return Restart(delay, attempts);
    }

    /** A whole history of ends, each decided on. */
    method DecideAll(ends: seq<End>) returns (decisions: seq<Decision>)
      requires attempts == 0
      modifies this
      ensures attempts == AttemptsBy(settings, ends)
      ensures |decisions| == |ends|
      ensures forall k :: 0 <= k < |ends| ==> decisions[k] == DecisionAt(settings, ends, k)
    {
      decisions := [];
      for k := 0 to |ends|
        invariant attempts == AttemptsBy(settings, ends[..k])
        invariant |decisions| == k
        invariant forall j :: 0 <= j < k ==> decisions[j] == DecisionAt(settings, ends, j)
      {
        assert ends[..k + 1][..k] == ends[..k];
        var d := Decide(ends[k].outcome, ends[k].shutdown);
        decisions := decisions + [d];
      }
      assert ends[..|ends|] == ends;
    }
  }

  function DecisionFor(s: Settings, attempts: u32, e: End): Decision {
    var counted := if Renews(s, e) then 0 else attempts;
    if ByUser(e) || !ShouldRestart(s.policy, e.outcome.reason) then Stop
    else if !BudgetLeft(s.maxRestarts, counted) then Fail(RestartLimit)
    else Restart(BackoffForAttempt(s.delay, s.maxDelay, counted), SaturatingAdd(counted, 1))
  }

  function AttemptsAfter(s: Settings, attempts: u32, e: End): u32 {
    var counted := if Renews(s, e) then 0 else attempts;
    if DecisionFor(s, attempts, e).Restart? then SaturatingAdd(counted, 1) else counted
  }

  /** The counter after a history. */
  function AttemptsBy(s: Settings, ends: seq<End>): u32 {
    if ends == [] then 0 else AttemptsAfter(s, AttemptsBy(s, ends[..|ends| - 1]), ends[|ends| - 1])
  }

  function DecisionAt(s: Settings, ends: seq<End>, k: nat): Decision
    requires k < |ends|
  {
    DecisionFor(s, AttemptsBy(s, ends[..k]), ends[k])
  }

  // ── Over whole histories ──────────────────────────────────────────────────

  /** How many of the first `n` ends were restarted since the last stable run among them, that run's own restart included. */
  function RestartsInBurst(s: Settings, ends: seq<End>, n: nat): (count: nat)
    requires n <= |ends|
  {
    if n == 0 then 0
    else
      (if Renews(s, ends[n - 1]) then 0 else RestartsInBurst(s, ends, n - 1))
      + (if DecisionAt(s, ends, n - 1).Restart? then 1 else 0)
  }

  /** How many restarts the burst has had when end `k` is decided on. */
  function RestartsBefore(s: Settings, ends: seq<End>, k: nat): nat
    requires k < |ends|
  {
    if Renews(s, ends[k]) then 0 else RestartsInBurst(s, ends, k)
  }

  lemma {:induction false} TheCounterCountsTheBurst(s: Settings, ends: seq<End>, n: nat)
    requires n <= |ends|
    ensures AttemptsBy(s, ends[..n]) == Min(RestartsInBurst(s, ends, n), U32_MAX)
    ensures s.maxRestarts > 0 ==> RestartsInBurst(s, ends, n) <= s.maxRestarts
  {
    if n > 0 {
      TheCounterCountsTheBurst(s, ends, n - 1);
      assert ends[..n][..n - 1] == ends[..n - 1];
    }
  }

  /**
   Over every history: a restart carries the number of restarts since the last
   stable run, saturating; a burst never has more than `maxRestarts` restarts
   unless that is zero; the supervisor gives up exactly at that count, and
   never when it is zero; and it stops quietly exactly when the user asked or
   the policy does not want this end restarted.
   */
  lemma EveryDecisionFollowsTheBurst(s: Settings, ends: seq<End>, k: nat)
    requires k < |ends|
    ensures
      var d, before, wanted := DecisionAt(s, ends, k), RestartsBefore(s, ends, k), ShouldRestart(s.policy, ends[k].outcome.reason);
      && (d.Stop? <==> ByUser(ends[k]) || !wanted)
      && (d.Fail? <==> !ByUser(ends[k]) && wanted && s.maxRestarts > 0 && before == s.maxRestarts)
      && (d.Fail? ==> d.reason == RestartLimit)
      && (s.maxRestarts > 0 ==> before <= s.maxRestarts)
      && (d.Restart? ==>
            && d.attempt == Min(before + 1, 4_294_967_295)
            && d.delay == BackoffForAttempt(s.delay, s.maxDelay, Min(before, U32_MAX)))
  {
    TheCounterCountsTheBurst(s, ends, k);
  }

  /** A shutdown the user asked for always stops, and leaves the budget as it was. */
  lemma TheUserIsObeyed(s: Settings, ends: seq<End>, k: nat)
    requires k < |ends| && ByUser(ends[k])
    ensures DecisionAt(s, ends, k) == Stop
    ensures AttemptsBy(s, ends[..k + 1]) == AttemptsBy(s, ends[..k])
  {
    assert ends[..k + 1][..k] == ends[..k];
  }

  /** The user ended it, in one of these four ways. */
  predicate Asked(e: End) {
    e.shutdown in {Some(UserInterrupt), Some(Terminated), Some(HangUp), Some(Requested)}
  }

  /**
   When a service is left alone.  `never` leaves it alone whatever happened,
   `on-failure` when it ended with code 0, and every policy when it could not be
   started and trying again is no use or the user asked for the end.  Everything
   else, any other code, a signal, a failed health check and a start worth
   another try, is restarted or given up on.
   */
  lemma EveryPolicyStopsExactlyHere(s: Settings, ends: seq<End>, k: nat)
    requires k < |ends|
    ensures
      var reason := ends[k].outcome.reason;
      DecisionAt(s, ends, k) == Stop <==>
        || Asked(ends[k])
        || s.policy == Plan.Never
        || (s.policy == Plan.OnFailure && reason == Code(0))
        || reason == SpawnFailure(false)
  {
  }

  /** `always` and `unless-stopped` decide alike, over every history. */
  lemma {:induction false} AlwaysIsUnlessStopped(s: Settings, t: Settings, ends: seq<End>)
    requires s.policy == Plan.Always && t == s.(policy := Plan.UnlessStopped)
    ensures AttemptsBy(s, ends) == AttemptsBy(t, ends)
    ensures forall k :: 0 <= k < |ends| ==> DecisionAt(s, ends, k) == DecisionAt(t, ends, k)
  {
    if ends != [] {
      var init, last := ends[..|ends| - 1], |ends| - 1;
      AlwaysIsUnlessStopped(s, t, init);
      forall k | 0 <= k < |ends| ensures DecisionAt(s, ends, k) == DecisionAt(t, ends, k) {
        assert ends[..k] == init[..k];
        if k < last {
          assert DecisionAt(s, init, k) == DecisionAt(t, init, k);
          assert init[k] == ends[k];
        } else {
          assert ends[..k] == init;
        }
      }
    }
  }

  /**
   A run of at least `stableAfter` that the user did not end starts over: the
   restart after it is the first, with the first delay, and it is never the
   one given up on.  After a shorter one the count goes on from the last.
   */
  lemma AStableRunStartsOver(s: Settings, ends: seq<End>, k: nat)
    requires k < |ends| && !Asked(ends[k])
    ensures
      var d := DecisionAt(s, ends, k);
      && (ends[k].outcome.uptime >= s.stableAfter ==>
            !d.Fail? && (d.Restart? ==> d.attempt == 1 && d.delay == Min(s.delay, s.maxDelay)))
      && (ends[k].outcome.uptime < s.stableAfter && k > 0 && d.Restart? && DecisionAt(s, ends, k - 1).Restart? ==>
            d.attempt == Min(DecisionAt(s, ends, k - 1).attempt + 1, 4_294_967_295))
  {
    FactorIs(0);
    if k > 0 {
      assert ends[..k][..k - 1] == ends[..k - 1];
    }
  }

  predicate SameBurst(s: Settings, ends: seq<End>, i: nat, j: nat)
    requires i <= j < |ends|
  {
    forall k :: i < k <= j ==> !Renews(s, ends[k])
  }

  lemma {:induction false} BurstsGrow(s: Settings, ends: seq<End>, i: nat, j: nat)
    requires i <= j < |ends| && SameBurst(s, ends, i, j)
    ensures RestartsBefore(s, ends, i) <= RestartsBefore(s, ends, j)
    ensures i < j && DecisionAt(s, ends, i).Restart? ==> RestartsBefore(s, ends, i) < RestartsBefore(s, ends, j)
    decreases j - i
  {
    if i < j {
      BurstsGrow(s, ends, i, j - 1);
    }
  }

  /** Inside a burst attempts are numbered upward and no delay is shorter than the one before. */
  lemma DelaysInABurstNeverShrink(s: Settings, ends: seq<End>, i: nat, j: nat)
    requires i < j < |ends| && SameBurst(s, ends, i, j)
    requires DecisionAt(s, ends, i).Restart? && DecisionAt(s, ends, j).Restart?
    ensures DecisionAt(s, ends, i).delay <= DecisionAt(s, ends, j).delay <= s.maxDelay
    ensures DecisionAt(s, ends, i).attempt < DecisionAt(s, ends, j).attempt || DecisionAt(s, ends, i).attempt == U32_MAX
  {
    BurstsGrow(s, ends, i, j);
    EveryDecisionFollowsTheBurst(s, ends, i);
    EveryDecisionFollowsTheBurst(s, ends, j);
    BackoffNeverShrinks(s.delay, s.maxDelay,
      Min(RestartsBefore(s, ends, i), U32_MAX), Min(RestartsBefore(s, ends, j), U32_MAX));
  }

  /** Under validated delays the n-th restart of a burst waits the first delay doubled n - 1 times, or the ceiling. */
  lemma DelaysInABurstDouble(s: Settings, ends: seq<End>, k: nat)
    requires k < |ends| && ValidDelays(s.delay, s.maxDelay) && DecisionAt(s, ends, k).Restart?
    ensures DecisionAt(s, ends, k).delay ==
              ClosedForm(s.delay, s.maxDelay, Min(RestartsBefore(s, ends, k), U32_MAX))
  {
    EveryDecisionFollowsTheBurst(s, ends, k);
    ValidDelaysDouble(s.delay, s.maxDelay, Min(RestartsBefore(s, ends, k), U32_MAX));
  }

  // ── The state machine ─────────────────────────────────────────────────────

  datatype ServiceState = Pending | Starting | Running | Backoff | Stopping | Stopped | Exited | Failed

  predicate CanTransitionTo(from: ServiceState, to: ServiceState) {
    match from
    case Pending => to.Starting? || to.Stopped?
    case Starting => to.Running? || to.Backoff? || to.Exited? || to.Failed? || to.Stopping?
    case Running => to.Stopping? || to.Backoff? || to.Exited? || to.Failed?
    case Backoff => to.Starting? || to.Stopped? || to.Failed?
    case Stopping => to.Backoff? || to.Stopped? || to.Exited? || to.Failed?
    case Stopped => false
    case Exited => false
    case Failed => false
  }

  predicate IsTerminal(state: ServiceState) {
    state.Stopped? || state.Exited? || state.Failed?
  }

  class StateMachine {
    var state: ServiceState

    constructor ()
      ensures state == Pending
    {
      state := Pending;
    }

    method TryTransition(next: ServiceState) returns (accepted: bool)
      modifies this
      ensures accepted == CanTransitionTo(old(state), next)
      ensures state == if accepted then next else old(state)
    {
      if CanTransitionTo(state, next) {
        state := next;
        return true;
      } else {
        return false;
      }
    }

    /** One request after the other, and the states the machine was in. */
    method Request(requests: seq<ServiceState>) returns (visited: seq<ServiceState>)
      modifies this
      ensures visited == Visited(old(state), requests) && state == visited[|visited| - 1]
    {
      visited := [state];
      for k := 0 to |requests|
        invariant visited == Visited(old(state), requests[..k]) && state == visited[|visited| - 1]
      {
        assert requests[..k + 1][..k] == requests[..k];
        var _ := TryTransition(requests[k]);
        visited := visited + [state];
      }
      assert requests[..|requests|] == requests;
    }
  }

  /** The states a machine goes through when these are requested. */
  function Visited(state: ServiceState, requests: seq<ServiceState>): (states: seq<ServiceState>)
    ensures |states| == |requests| + 1 && states[0] == state
    decreases |requests|
  {
    if requests == [] then [state]
    else
      var before, next := Visited(state, requests[..|requests| - 1]), requests[|requests| - 1];
      var last := before[|before| - 1];
      before + [if CanTransitionTo(last, next) then next else last]
  }

  /** Where a service can go from each state. */
  lemma TheWaysOut(state: ServiceState, next: ServiceState)
    ensures CanTransitionTo(state, next) <==>
              || (next == Starting && state in {Pending, Backoff})
              || (next == Running && state == Starting)
              || (next == Stopping && state in {Starting, Running})
              || (next == Stopped && state in {Pending, Backoff, Stopping})
              || (next == Backoff && state in {Starting, Running, Stopping})
              || (next == Exited && state in {Starting, Running, Stopping})
              || (next == Failed && state in {Starting, Running, Backoff, Stopping})
  {
  }

  /** The terminal states are exactly those without a way out. */
  lemma TerminalMeansNoWayOut(state: ServiceState)
    ensures IsTerminal(state) <==> forall next :: !CanTransitionTo(state, next)
    ensures IsTerminal(state) <==> state in {Stopped, Exited, Failed}
  {
    assert CanTransitionTo(Pending, Starting) && CanTransitionTo(Starting, Running);
    assert CanTransitionTo(Running, Stopping) && CanTransitionTo(Backoff, Starting);
    assert CanTransitionTo(Stopping, Stopped);
  }

  lemma {:induction false} StepsAreLegal(state: ServiceState, requests: seq<ServiceState>, k: nat)
    requires k < |requests|
    ensures
      var from, to := Visited(state, requests)[k], Visited(state, requests)[k + 1];
      to == from || CanTransitionTo(from, to)
    decreases |requests|
  {
    if k < |requests| - 1 {
      StepsAreLegal(state, requests[..|requests| - 1], k);
    }
  }

  /** Whatever is requested, a terminal state is for ever. */
  lemma {:induction false} TerminalIsForEver(state: ServiceState, requests: seq<ServiceState>, i: nat, k: nat)
    requires i <= k <= |requests| && IsTerminal(Visited(state, requests)[i])
    ensures Visited(state, requests)[k] == Visited(state, requests)[i]
    decreases k
  {
    if i < k {
      TerminalIsForEver(state, requests, i, k - 1);
      StepsAreLegal(state, requests, k - 1);
    }
  }

  /** Whatever is requested, a service that is not running has to start before it runs. */
  lemma {:induction false} NoRunWithoutAStart(state: ServiceState, requests: seq<ServiceState>, i: nat, k: nat)
    returns (j: nat)
    requires
      var states := Visited(state, requests);
      i < k <= |requests| && !states[i].Running? && !states[i].Starting? && states[k].Running?
    ensures i < j < k && Visited(state, requests)[j].Starting?
    decreases k
  {
    StepsAreLegal(state, requests, k - 1);
    if Visited(state, requests)[k - 1].Starting? {
      j := k - 1;
    } else {
      j := NoRunWithoutAStart(state, requests, i, k - 1);
    }
  }
}
