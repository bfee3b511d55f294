/** The health monitor's counters: what it signals and what it publishes. */
module Health {
  import opened Prelude

  const U32_MAX := 0xFFFF_FFFF

  const MAX_CONSECUTIVE_FAILURES := 100_000

  const REPORT_FAILURE_EVERY := 100

  type u32 = n: int | 0 <= n <= U32_MAX

  /** A validated retry budget. */
  type Retries = n: int | 1 <= n <= U32_MAX witness 1

  function SaturatingAdd(a: u32, b: u32): u32 {
    if a + b <= U32_MAX then a + b else U32_MAX
  }

  function Ceiling(retries: Retries): u32 {
    Max(MAX_CONSECUTIVE_FAILURES, retries)
  }

  predicate ShouldReportFailure(consecutive: u32, retries: Retries, reportedAt: u32) {
    || consecutive == 1
    || consecutive == retries
    || consecutive >= SaturatingAdd(reportedAt, REPORT_FAILURE_EVERY)
  }

  /** What one tick found: a success, or a failure that counts unless the start period is still running. */
  datatype Probe = Passed | Failed(starting: bool)

  /** What travels to the service runner, and what is only published. */
  datatype Output = Ready | Unhealthy | Reported(consecutive: u32)

  // ── The code ──────────────────────────────────────────────────────────────

  datatype Counters = Counters(consecutive: u32, ready: bool, reportedAt: u32)

  const START := Counters(0, false, 0)

  class Monitor {
    const retries: Retries
    var consecutive: u32
    var ready: bool
    var reportedAt: u32
    var sent: seq<Output>

    function View(): Counters
      reads this
    {
      Counters(consecutive, ready, reportedAt)
    }

    constructor (retries: Retries)
      ensures this.retries == retries && View() == START && sent == []
    {
      this.retries := retries;
      consecutive, ready, reportedAt, sent := 0, false, 0, [];
    }

    method Tick(probe: Probe)
      modifies this
      ensures View() == After(retries, old(View()), probe)
      ensures sent == old(sent) + Outputs(retries, old(View()), probe)
    {
      match probe
      case Passed =>
        consecutive := 0;
        reportedAt := 0;
        if !ready {
          ready := true;
          sent := sent + [Ready];
        }
      case Failed(starting) =>
        if starting {
          return;
        }
        consecutive := Min(SaturatingAdd(consecutive, 1), Ceiling(retries));
        if ShouldReportFailure(consecutive, retries, reportedAt) {
          reportedAt := consecutive;
          sent := sent + [Reported(consecutive)];
        }
        if consecutive == retries {
          ready := false;
          sent := sent + [Unhealthy];
        }
    }

    /** The loop, for as many ticks as there are. */
    method Run(probes: seq<Probe>)
      requires View() == START && sent == []
      modifies this
      ensures View() == AfterAll(retries, probes) && sent == Sent(retries, probes)
    {
      for k := 0 to |probes|
        invariant View() == AfterAll(retries, probes[..k]) && sent == Sent(retries, probes[..k])
      {
        assert probes[..k + 1][..k] == probes[..k];
        Tick(probes[k]);
      }
      assert probes[..|probes|] == probes;
    }
  }

  function Counted(retries: Retries, consecutive: u32): u32 {
    Min(SaturatingAdd(consecutive, 1), Ceiling(retries))
  }

  function After(retries: Retries, c: Counters, probe: Probe): Counters {
    match probe
    case Passed => Counters(0, true, 0)
    case Failed(starting) =>
      if starting then c
      else
        var n := Counted(retries, c.consecutive);
        Counters(n, c.ready && n != retries, if ShouldReportFailure(n, retries, c.reportedAt) then n else c.reportedAt)
  }

  function Outputs(retries: Retries, c: Counters, probe: Probe): seq<Output> {
    match probe
    case Passed => if c.ready then [] else [Ready]
    case Failed(starting) =>
      if starting then []
      else
        var n := Counted(retries, c.consecutive);
        (if ShouldReportFailure(n, retries, c.reportedAt) then [Reported(n)] else [])
        + (if n == retries then [Unhealthy] else [])
  }

  function AfterAll(retries: Retries, probes: seq<Probe>): Counters {
    if probes == [] then START else After(retries, AfterAll(retries, probes[..|probes| - 1]), probes[|probes| - 1])
  }

  function SentAt(retries: Retries, probes: seq<Probe>, k: nat): seq<Output>
    requires k < |probes|
  {
    Outputs(retries, AfterAll(retries, probes[..k]), probes[k])
  }

  function Sent(retries: Retries, probes: seq<Probe>): seq<Output> {
    if probes == [] then []
    else Sent(retries, probes[..|probes| - 1]) + SentAt(retries, probes, |probes| - 1)
  }

  // ── Streaks ───────────────────────────────────────────────────────────────

  /** The counted failures since the last success. */
  function Streak(probes: seq<Probe>): nat {
    if probes == [] then 0
    else
      match probes[|probes| - 1]
      case Passed => 0
      case Failed(starting) => Streak(probes[..|probes| - 1]) + if starting then 0 else 1
  }

  lemma {:induction false} TheCounterIsTheStreak(retries: Retries, probes: seq<Probe>)
    ensures AfterAll(retries, probes).consecutive == Min(Streak(probes), Ceiling(retries))
  {
    if probes != [] {
      TheCounterIsTheStreak(retries, probes[..|probes| - 1]);
    }
  }

  /**
   A tick signals `Unhealthy` exactly when it is the failure that makes the
   streak as long as the budget; from 100 000 retries up, every later failure
   of the streak does so too.
   */
  lemma UnhealthyExactlyAtTheBudget(retries: Retries, probes: seq<Probe>, k: nat)
    requires k < |probes|
    ensures
      var streak := Streak(probes[..k + 1]);
      Unhealthy in SentAt(retries, probes, k) <==>
        && probes[k] == Failed(false)
        && (streak == retries || (retries >= 100_000 && streak > retries))
  {
    TheCounterIsTheStreak(retries, probes[..k]);
    assert probes[..k + 1][..k] == probes[..k];
  }

  // ── Signals alternate ─────────────────────────────────────────────────────

  function Signals(outputs: seq<Output>): seq<Output> {
    if outputs == [] then []
    else Signals(outputs[..|outputs| - 1])
         + if outputs[|outputs| - 1].Reported? then [] else [outputs[|outputs| - 1]]
  }

  predicate Alternate(signals: seq<Output>) {
    forall i :: 0 < i < |signals| ==> signals[i] != signals[i - 1]
  }

  lemma {:induction false} SignalsOfBoth(a: seq<Output>, b: seq<Output>)
    ensures Signals(a + b) == Signals(a) + Signals(b)
  {
    if b == [] {
      assert a + b == a;
    } else {
      SignalsOfBoth(a, b[..|b| - 1]);
      assert (a + b)[..|a + b| - 1] == a + b[..|b| - 1];
    }
  }

  function Signal(retries: Retries, c: Counters, probe: Probe): seq<Output> {
    match probe
    case Passed => if c.ready then [] else [Ready]
    case Failed(starting) => if !starting && Counted(retries, c.consecutive) == retries then [Unhealthy] else []
  }

  lemma SignalOfTick(retries: Retries, c: Counters, probe: Probe)
    ensures Signals(Outputs(retries, c, probe)) == Signal(retries, c, probe)
  {
    assert forall x: Output :: Signals([x]) == if x.Reported? then [] else [x] by {
      forall x: Output ensures Signals([x]) == if x.Reported? then [] else [x] {
        assert [x][..0] == [];
      }
    }
    forall x: Output, y: Output ensures Signals([x, y]) == Signals([x]) + Signals([y]) {
      SignalsOfBoth([x], [y]);
      assert [x] + [y] == [x, y];
    }
  }

  lemma SignalsOfAll(retries: Retries, probes: seq<Probe>)
    requires probes != []
    ensures
      var before := probes[..|probes| - 1];
      Signals(Sent(retries, probes)) ==
        Signals(Sent(retries, before)) + Signal(retries, AfterAll(retries, before), probes[|probes| - 1])
  {
    var before := probes[..|probes| - 1];
    SignalsOfBoth(Sent(retries, before), SentAt(retries, probes, |probes| - 1));
    SignalOfTick(retries, AfterAll(retries, before), probes[|probes| - 1]);
  }

  /** What the signals so far say of the counters. */
  ghost predicate Agrees(retries: Retries, signals: seq<Output>, c: Counters) {
    && Alternate(signals)
    && (c.ready <==> signals != [] && signals[|signals| - 1] == Ready)
    && (signals != [] && signals[|signals| - 1] == Unhealthy ==> c.consecutive >= retries)
    && (signals == [] ==> !c.ready)
  }

  lemma {:induction false} SignalsAgree(retries: Retries, probes: seq<Probe>)
    requires retries < 100_000
    ensures Agrees(retries, Signals(Sent(retries, probes)), AfterAll(retries, probes))
  {
    if probes != [] {
      var before := probes[..|probes| - 1];
      SignalsAgree(retries, before);
      SignalsOfAll(retries, probes);
    }
  }

  /** After a probe that passed, the service was last said to be ready. */
  lemma APassIsReady(retries: Retries, probes: seq<Probe>)
    requires retries < 100_000 && probes != [] && probes[|probes| - 1] == Passed
    ensures
      var signals := Signals(Sent(retries, probes));
      signals != [] && signals[|signals| - 1] == Ready
  {
    SignalsAgree(retries, probes);
  }

  /** After a failure that makes the streak as long as the budget, or longer, it was last said not to be. */
  lemma ALongStreakIsUnhealthy(retries: Retries, probes: seq<Probe>)
    requires retries < 100_000 && Streak(probes) >= retries
    ensures
      var signals := Signals(Sent(retries, probes));
      signals != [] && signals[|signals| - 1] == Unhealthy
  {
    SignalsAgree(retries, probes);
    UnhealthySince(retries, probes);
    NoReportIsASignal(Sent(retries, probes));
    var signals := Signals(Sent(retries, probes));
    assert signals[|signals| - 1] in signals;
  }

  lemma {:induction false} NoReportIsASignal(outputs: seq<Output>)
    ensures forall x <- Signals(outputs) :: !x.Reported?
  {
    if outputs != [] {
      NoReportIsASignal(outputs[..|outputs| - 1]);
    }
  }

  lemma {:induction false} UnhealthySince(retries: Retries, probes: seq<Probe>)
    requires retries < 100_000 && Streak(probes) >= retries
    ensures |Signals(Sent(retries, probes))| > 0 && !AfterAll(retries, probes).ready
  {
    var before := probes[..|probes| - 1];
    SignalsOfAll(retries, probes);
    TheCounterIsTheStreak(retries, before);
    assert AfterAll(retries, probes) == After(retries, AfterAll(retries, before), probes[|probes| - 1]);
    if Streak(before) >= retries {
      UnhealthySince(retries, before);
    } else {
      assert Signal(retries, AfterAll(retries, before), probes[|probes| - 1]) == [Unhealthy];
    }
  }

  /** A probe that never passes, once the start period is over. */
  predicate NeverPasses(probes: seq<Probe>) {
    forall k :: 0 <= k < |probes| ==> probes[k] == Failed(false)
  }

  function Failures(n: nat): (probes: seq<Probe>)
    ensures |probes| == n && NeverPasses(probes)
  {
    if n == 0 then [] else Failures(n - 1) + [Failed(false)]
  }

  lemma {:induction false} FailuresAreAStreak(probes: seq<Probe>)
    requires NeverPasses(probes)
    ensures Streak(probes) == |probes|
  {
    if probes != [] {
      FailuresAreAStreak(probes[..|probes| - 1]);
    }
  }

  lemma CounterOfFailures(retries: Retries, probes: seq<Probe>)
    requires NeverPasses(probes)
    ensures AfterAll(retries, probes).consecutive == Min(|probes|, Ceiling(retries))
  {
  }

  /** The signals of a number of failures. */
  function SignalsBy(retries: Retries, n: nat): seq<Output> {
    if n == 0 then []
    else SignalsBy(retries, n - 1) + if Min(n, Ceiling(retries)) == retries then [Unhealthy] else []
  }

  lemma {:induction false} SignalsByIs(retries: Retries, probes: seq<Probe>)
    requires NeverPasses(probes)
    ensures Signals(Sent(retries, probes)) == SignalsBy(retries, |probes|)
  {
    if probes != [] {
      var before := probes[..|probes| - 1];
      SignalsByIs(retries, before);
      SignalsOfAll(retries, probes);
      CounterOfFailures(retries, before);
    }
  }

  lemma {:induction false} NoSignalBeforeTheBudget(retries: Retries, n: nat)
    requires n < retries
    ensures SignalsBy(retries, n) == []
  {
    if n > 0 {
      NoSignalBeforeTheBudget(retries, n - 1);
    }
  }

  /** A large budget, overrun by one failure, signals the same thing twice. */
  lemma LargeBudgetsRepeat(retries: Retries)
    requires retries >= 100_000
    ensures Signals(Sent(retries, Failures(retries + 1))) == [Unhealthy, Unhealthy]
  {
    NoSignalBeforeTheBudget(retries, retries - 1);
    assert SignalsBy(retries, retries) == [Unhealthy];
    assert SignalsBy(retries, retries + 1) == [Unhealthy] + [Unhealthy];
    SignalsByIs(retries, Failures(retries + 1));
  }

  ghost predicate AlwaysAlternates(retries: Retries) {
    forall probes :: Alternate(Signals(Sent(retries, probes)))
  }

  /**
   `Ready` and `Unhealthy` strictly alternate in every run exactly when there
   are fewer than 100 000 retries.
   */
  lemma SignalsAlternateExactlyWhen(retries: Retries)
    ensures AlwaysAlternates(retries) <==> retries < 100_000
  {
    if retries < MAX_CONSECUTIVE_FAILURES {
      forall probes ensures Alternate(Signals(Sent(retries, probes))) {
        SignalsAgree(retries, probes);
      }
    } else {
      LargeBudgetsRepeat(retries);
      var signals := Signals(Sent(retries, Failures(retries + 1)));
      assert signals[1] == signals[0];
    }
  }

  // ── Reports are thinned out ───────────────────────────────────────────────

  function Reports(outputs: seq<Output>): nat {
    if outputs == [] then 0
    else Reports(outputs[..|outputs| - 1]) + if outputs[|outputs| - 1].Reported? then 1 else 0
  }

  lemma ReportsOfTick(retries: Retries, c: Counters, probe: Probe)
    ensures Reports(Outputs(retries, c, probe)) ==
              if probe == Failed(false) && ShouldReportFailure(Counted(retries, c.consecutive), retries, c.reportedAt)
              then 1 else 0
  {
    var outputs := Outputs(retries, c, probe);
    if |outputs| == 2 {
      ReportsOfOne(outputs[0]);
      assert outputs[..1] == [outputs[0]];
    } else if |outputs| == 1 {
      ReportsOfOne(outputs[0]);
      assert outputs == [outputs[0]];
    }
  }

  lemma ReportsOfOne(x: Output)
    ensures Reports([x]) == if x.Reported? then 1 else 0
  {
    assert [x][..0] == [];
  }

  /** The failures published since the last success. */
  function ReportsInStreak(retries: Retries, probes: seq<Probe>): nat {
    if probes == [] || probes[|probes| - 1].Passed? then 0
    else ReportsInStreak(retries, probes[..|probes| - 1]) + Reports(SentAt(retries, probes, |probes| - 1))
  }

  /** All but the first report and the one that exhausts the budget are a hundred failures after the one before. */
  predicate Thinned(retries: Retries, c: Counters, reports: nat) {
    if c.consecutive == 0 then reports == 0 && c.reportedAt == 0
    else
      && 1 <= c.reportedAt <= c.consecutive <= 100_000
      && 100 * (reports - if 1 < retries <= c.consecutive then 2 else 1) <= c.reportedAt - 1
  }

  lemma {:induction false} ReportsAreThinned(retries: Retries, probes: seq<Probe>)
    requires retries < 100_000
    ensures Thinned(retries, AfterAll(retries, probes), ReportsInStreak(retries, probes))
  {
    if probes != [] {
      var before := probes[..|probes| - 1];
      ReportsAreThinned(retries, before);
      ReportsOfTick(retries, AfterAll(retries, before), probes[|probes| - 1]);
    }
  }

  /**
   What is published of a streak: its first failure and the one that exhausts
   the budget always, each with its number, and nobody waits for more than a
   hundred failures to hear of another.
   */
  lemma FailuresAreHeardOf(retries: Retries, probes: seq<Probe>, k: nat)
    requires k < |probes| && retries < 100_000
    ensures
      var streak := Streak(probes[..k + 1]);
      && (forall n :: Reported(n) in SentAt(retries, probes, k) ==> n == Min(streak, 100_000))
      && (probes[k] == Failed(false) && (streak == 1 || streak == retries) ==>
            Reported(streak) in SentAt(retries, probes, k))
      && (probes[k] != Failed(false) ==> forall n :: Reported(n) !in SentAt(retries, probes, k))
  {
    TheCounterIsTheStreak(retries, probes[..k]);
    assert probes[..k + 1][..k] == probes[..k];
  }

  lemma {:induction false} NoLongSilence(retries: Retries, probes: seq<Probe>)
    requires retries < 100_000
    ensures
      var c := AfterAll(retries, probes);
      c.reportedAt <= c.consecutive < c.reportedAt + 100 || c.consecutive == 100_000
  {
    if probes != [] {
      NoLongSilence(retries, probes[..|probes| - 1]);
      TheCounterIsTheStreak(retries, probes[..|probes| - 1]);
    }
  }

  /** However long a probe keeps failing, one streak publishes at most 1001 failures. */
  lemma AStreakPublishesLittle(retries: Retries, probes: seq<Probe>)
    requires retries < 100_000
    ensures ReportsInStreak(retries, probes) <= 1001
  {
    ReportsAreThinned(retries, probes);
  }

  /** Where the last report of a number of failures was, and how many there were. */
  datatype Published = Published(last: u32, count: nat)

  function Next(retries: Retries, n: nat, p: Published): Published {
    var consecutive := Min(n, Ceiling(retries));
    if ShouldReportFailure(consecutive, retries, p.last) then Published(consecutive, p.count + 1) else p
  }

  function PublishedBy(retries: Retries, n: nat): Published {
    if n == 0 then Published(0, 0) else Next(retries, n, PublishedBy(retries, n - 1))
  }

  lemma {:induction false} PublishedByIs(retries: Retries, probes: seq<Probe>)
    requires NeverPasses(probes)
    ensures Published(AfterAll(retries, probes).reportedAt, ReportsInStreak(retries, probes)) == PublishedBy(retries, |probes|)
  {
    if probes != [] {
      var before := probes[..|probes| - 1];
      PublishedByIs(retries, before);
      CounterOfFailures(retries, before);
      ReportsOfTick(retries, AfterAll(retries, before), probes[|probes| - 1]);
    }
  }

  /** A streak of `n` with a budget of two: reports at 1 and 2 and then every hundred failures. */
  predicate EveryHundred(n: nat, p: Published) {
    p.count >= 2 && p.last == 2 + 100 * (p.count - 2) && p.last <= n < p.last + 100
  }

  lemma {:induction false} ReportsOfTwoRetries(n: nat)
    requires 2 <= n <= 100_000
    ensures EveryHundred(n, PublishedBy(2, n))
  {
    if n == 2 {
      assert PublishedBy(2, 1) == Published(1, 1);
    } else {
      ReportsOfTwoRetries(n - 1);
    }
  }

  /** The bound is reached, with a budget of two. */
  lemma TheBoundIsReached()
    ensures ReportsInStreak(2, Failures(100_000)) == 1001
  {
    ReportsOfTwoRetries(MAX_CONSECUTIVE_FAILURES);
    PublishedByIs(2, Failures(MAX_CONSECUTIVE_FAILURES));
  }

  lemma {:induction false} LargeBudgetsKeepReporting(retries: Retries, more: nat)
    requires retries >= 100_000
    ensures PublishedBy(retries, retries + more).count >= more
  {
    if more > 0 {
      LargeBudgetsKeepReporting(retries, more - 1);
    }
  }

  /** From 100 000 retries up nothing is thinned out once the budget is gone: every failure is published. */
  lemma LargeBudgetsPublishForEver(retries: Retries, more: nat)
    requires retries >= 100_000
    ensures ReportsInStreak(retries, Failures(retries + more)) >= more
  {
    LargeBudgetsKeepReporting(retries, more);
    PublishedByIs(retries, Failures(retries + more));
  }
}
