/**
 The event channels of a whole stack: every run of a service has a channel of
 its own, and a relay passes what comes out of it on to the global channel, from
 which the user is told.
 */
module EventRelay {
  import opened Prelude
  import opened EventProtocol
  import opened EventChannel

  /** The channel of one run of a service, and the event its relay took out and has not passed on. */
  datatype Service = Service(chan: Chan, hand: Option<Event>)

  datatype Stack = Stack(
    services: seq<Service>,
    global: Chan,
    // What happened so far.
    sent: seq<Event>) // everything that services and the supervisor sent, in order

  datatype Step =
    | Starts                       // a run begins, with a channel of its own
    | Says(s: nat, event: Event)   // its runner, monitor or output reader sends an event
    | Takes(s: nat)                // its relay receives the oldest one
    | Passes(s: nat)               // and sends it to the global channel
    | Announces(event: Event)      // the supervisor sends one there itself
    | Reads                        // the user's end takes one out

  const Init := Stack([], Fresh, [])

  predicate Enabled(st: Stack, step: Step) {
    match step
    case Takes(s) => s < |st.services| && st.services[s].hand.None? && st.services[s].chan.queue != []
    case Passes(s) => s < |st.services| && st.services[s].hand.Some?
    case Says(s, _) => s < |st.services|
    case Reads => st.global.queue != []
    case _ => true
  }

  function Apply(st: Stack, step: Step): Stack
    requires Enabled(st, step)
  {
    match step
    case Starts => st.(services := st.services + [Service(Fresh, None)])
    case Says(s, e) =>
      var sv := st.services[s];
      st.(services := st.services[s := sv.(chan := Send(sv.chan, e))], sent := st.sent + [e])
    case Takes(s) =>
      var sv := st.services[s];
      st.(services := st.services[s := Service(Receive(sv.chan), Some(sv.chan.queue[0]))])
    case Passes(s) =>
      var sv := st.services[s];
      st.(services := st.services[s := sv.(hand := None)], global := Send(st.global, sv.hand.value))
    case Announces(e) => st.(global := Send(st.global, e), sent := st.sent + [e])
    case Reads => st.(global := Receive(st.global))
  }

  /** Any interleaving; a step that cannot be taken is passed over. */
  function Exec(steps: seq<Step>): Stack
    decreases |steps|
  {
    if steps == [] then Init
    else
      var before := Exec(steps[..|steps| - 1]);
      var step := steps[|steps| - 1];
      if Enabled(before, step) then Apply(before, step) else before
  }

  // ── Sums over events and over services ────────────────────────────────────

  function Sum<T>(w: T -> nat, items: seq<T>): nat {
    if items == [] then 0 else Sum(w, items[..|items| - 1]) + w(items[|items| - 1])
  }

  lemma SumBack<T>(w: T -> nat, items: seq<T>, x: T)
    ensures Sum(w, items + [x]) == Sum(w, items) + w(x)
  {
    assert (items + [x])[..|items|] == items;
  }

  lemma {:induction false} SumTogether<T>(w: T -> nat, a: seq<T>, b: seq<T>)
    ensures Sum(w, a + b) == Sum(w, a) + Sum(w, b)
  {
    if b == [] {
      assert a + b == a;
    } else {
      assert (a + b)[..|a + b| - 1] == a + b[..|b| - 1];
      SumTogether(w, a, b[..|b| - 1]);
    }
  }

  lemma SumFront<T>(w: T -> nat, items: seq<T>)
    requires items != []
    ensures Sum(w, items) == w(items[0]) + Sum(w, items[1..])
  {
    assert items == [items[0]] + items[1..];
    SumTogether(w, [items[0]], items[1..]);
    SumBack(w, [], items[0]);
    assert [] + [items[0]] == [items[0]];
  }

  lemma {:induction false} SumUpdate<T>(w: T -> nat, items: seq<T>, k: nat, x: T)
    requires k < |items|
    ensures Sum(w, items[k := x]) == Sum(w, items) - w(items[k]) + w(x)
  {
    var n := |items| - 1;
    if k == n {
      assert items[k := x][..n] == items[..n];
    } else {
      assert items[k := x][..n] == items[..n][k := x];
      SumUpdate(w, items[..n], k, x);
    }
  }

  lemma {:induction false} SumAtMost<T>(w: T -> nat, v: T -> nat, items: seq<T>)
    requires forall x <- items :: w(x) <= v(x)
    ensures Sum(w, items) <= Sum(v, items)
  {
    if items != [] {
      assert items[|items| - 1] in items;
      assert forall x <- items[..|items| - 1] :: x in items;
      SumAtMost(w, v, items[..|items| - 1]);
    }
  }

  // ── What is counted ───────────────────────────────────────────────────────

  /** How many log lines an event stands for: the one it carries, or those it reports as lost. */
  function Lines(e: Event): nat {
    match e
    case Log(_) => 1
    case LogLinesDropped(n) => n
    case Relayed(n) => n
    case Other => 0
  }

  /** An event that reports lost lines, as its reader sees it. */
  function IsReport(e: Event): nat {
    if e.LogLinesDropped? || e.Relayed? then 1 else 0
  }

  function InHand(w: Event -> nat, sv: Service): nat {
    if sv.hand.Some? then w(sv.hand.value) else 0
  }

  /** The lines a service's channel and relay still have: as lines, as reports, or to be reported. */
  function LinesAt(sv: Service): nat {
    Sum(Lines, sv.chan.queue) + sv.chan.dropped + InHand(Lines, sv)
  }

  /** The reports a service's channel and relay still have. */
  function ReportsAt(sv: Service): nat {
    Sum(IsReport, sv.chan.queue) + InHand(IsReport, sv)
  }

  /** The reports the channel of a service ever wrote. */
  function ReportsBy(sv: Service): nat {
    Reports(Everything(sv.chan))
  }

  function AllowedTo(sv: Service): nat {
    Allowed(sv.chan)
  }

  function QueuedAt(sv: Service): nat {
    Logs(sv.chan.queue)
  }

  // ── One channel ───────────────────────────────────────────────────────────

  lemma SumOne<T>(w: T -> nat, x: T)
    ensures Sum(w, [x]) == w(x)
  {
    assert [x][..0] == [];
  }

  lemma AddedLines(c: Chan, e: Event)
    ensures Sum(Lines, Added(c, e)) + Send(c, e).dropped == c.dropped + Lines(e)
  {
    SumOne(Lines, Arriving(e));
    if e.Log? {
      var own, line := Report(c), if c.queued < MAX_QUEUED_LOG_LINES then [e] else [];
      SumTogether(Lines, own, line);
      if own != [] {
        SumOne(Lines, own[0]);
      }
    }
  }

  /** A send adds its lines to the channel: there as a line, or as one more to be reported. */
  lemma SendKeepsLines(c: Chan, e: Event)
    ensures Sum(Lines, Send(c, e).queue) + Send(c, e).dropped == Sum(Lines, c.queue) + c.dropped + Lines(e)
    ensures Send(c, e).received == c.received
  {
    SendAdds(c, e);
    AddedLines(c, e);
    SumTogether(Lines, c.queue, Added(c, e));
  }

  lemma AddedReports(c: Chan, e: Event)
    ensures Sum(IsReport, Added(c, e)) == Reports(Added(c, e)) + IsReport(Arriving(e))
  {
    SumOne(IsReport, Arriving(e));
    ReportsOne(Arriving(e));
    if e.Log? {
      var own, line := Report(c), if c.queued < MAX_QUEUED_LOG_LINES then [e] else [];
      SumTogether(IsReport, own, line);
      ReportsTogether(own, line);
      if own != [] {
        SumOne(IsReport, own[0]);
        ReportsOne(own[0]);
      }
    }
  }

  lemma ReportsOne(e: Event)
    ensures Reports([e]) == if e.LogLinesDropped? then 1 else 0
  {
    assert [e][..|[e]| - 1] == [];
    assert Backstops([]) == LetUps([]) == 0;
  }

  lemma {:induction false} ReportsTogether(a: seq<Event>, b: seq<Event>)
    ensures Reports(a + b) == Reports(a) + Reports(b)
  {
    if b == [] {
      assert a + b == a;
    } else {
      assert (a + b)[..|a + b| - 1] == a + b[..|b| - 1];
      ReportsTogether(a, b[..|b| - 1]);
    }
  }

  /** A report in a channel was written by it or handed to it. */
  lemma SendKeepsReports(c: Chan, e: Event)
    ensures Sum(IsReport, Send(c, e).queue) - Reports(Everything(Send(c, e)))
         == Sum(IsReport, c.queue) - Reports(Everything(c)) + IsReport(e)
  {
    SendAdds(c, e);
    AddedReports(c, e);
    SumTogether(IsReport, c.queue, Added(c, e));
    ReportsTogether(Everything(c), Added(c, e));
  }

  /** Every report in a channel is its own or a relayed one. */
  lemma {:induction false} OwnAndRelayed(events: seq<Event>)
    ensures Sum(IsReport, events) == Reports(events) + Relays(events)
  {
    if events != [] {
      OwnAndRelayed(events[..|events| - 1]);
    }
  }

  // ── The invariant ─────────────────────────────────────────────────────────

  /** Every line ever sent is somewhere: with a service, or with the global channel and its reader. */
  ghost predicate LinesKept(st: Stack) {
    Sum(Lines, st.sent)
    == Sum(LinesAt, st.services) + Sum(Lines, st.global.queue) + Sum(Lines, st.global.received) + st.global.dropped
  }

  /** Every report was written by a service's channel or sent; it still is with the service, or was relayed once. */
  ghost predicate ReportsKept(st: Stack) {
    Sum(IsReport, st.sent) + Sum(ReportsBy, st.services)
    == Sum(ReportsAt, st.services) + Relays(Everything(st.global))
  }

  ghost predicate AllRationed(st: Stack) {
    Rationed(st.global) && forall sv <- st.services :: Rationed(sv.chan)
  }

  ghost predicate Inv(st: Stack) {
    LinesKept(st) && ReportsKept(st) && AllRationed(st)
  }

  lemma ServiceSums(st: Stack, s: nat, sv: Service)
    requires s < |st.services|
    ensures
      var was, now := st.services[s], st.services[s := sv];
      && Sum(LinesAt, now) == Sum(LinesAt, st.services) - LinesAt(was) + LinesAt(sv)
      && Sum(ReportsAt, now) == Sum(ReportsAt, st.services) - ReportsAt(was) + ReportsAt(sv)
      && Sum(ReportsBy, now) == Sum(ReportsBy, st.services) - ReportsBy(was) + ReportsBy(sv)
  {
    SumUpdate(LinesAt, st.services, s, sv);
    SumUpdate(ReportsAt, st.services, s, sv);
    SumUpdate(ReportsBy, st.services, s, sv);
  }

  lemma OneChanges(st: Stack, s: nat, sv: Service)
    requires AllRationed(st) && s < |st.services| && Rationed(sv.chan)
    ensures AllRationed(st.(services := st.services[s := sv]))
  {
  }

  lemma SentMore(st: Stack, e: Event)
    ensures Sum(Lines, st.sent + [e]) == Sum(Lines, st.sent) + Lines(e)
    ensures Sum(IsReport, st.sent + [e]) == Sum(IsReport, st.sent) + IsReport(e)
  {
    SumBack(Lines, st.sent, e);
    SumBack(IsReport, st.sent, e);
  }

  lemma StartsKeepsInv(st: Stack)
    requires Inv(st)
    ensures Inv(Apply(st, Starts))
  {
    var sv := Service(Fresh, None);
    SumBack(LinesAt, st.services, sv);
    SumBack(ReportsAt, st.services, sv);
    SumBack(ReportsBy, st.services, sv);
  }

  lemma SaysKeepsInv(st: Stack, s: nat, e: Event)
    requires Inv(st) && s < |st.services|
    ensures Inv(Apply(st, Says(s, e)))
  {
    var sv := st.services[s];
    var chan := Send(sv.chan, e);
    assert sv in st.services;
    SendKeepsRation(sv.chan, e);
    SendKeepsLines(sv.chan, e);
    SendKeepsReports(sv.chan, e);
    ServiceSums(st, s, sv.(chan := chan));
    OneChanges(st, s, sv.(chan := chan));
    SentMore(st, e);
  }

  lemma TakesKeepsInv(st: Stack, s: nat)
    requires Inv(st) && Enabled(st, Takes(s))
    ensures Inv(Apply(st, Takes(s)))
  {
    var sv := st.services[s];
    var taken := Service(Receive(sv.chan), Some(sv.chan.queue[0]));
    assert sv in st.services;
    ReceiveKeepsRation(sv.chan);
    ReceiveMovesOne(sv.chan);
    SumFront(Lines, sv.chan.queue);
    SumFront(IsReport, sv.chan.queue);
    ServiceSums(st, s, taken);
    OneChanges(st, s, taken);
  }

  lemma GlobalGets(c: Chan, e: Event)
    requires Rationed(c)
    ensures Rationed(Send(c, e))
    ensures Sum(Lines, Send(c, e).queue) + Sum(Lines, Send(c, e).received) + Send(c, e).dropped
         == Sum(Lines, c.queue) + Sum(Lines, c.received) + c.dropped + Lines(e)
    ensures Relays(Everything(Send(c, e))) == Relays(Everything(c)) + IsReport(e)
  {
    SendKeepsRation(c, e);
    SendKeepsLines(c, e);
    SendPasses(c, e);
  }

  lemma PassesKeepsInv(st: Stack, s: nat)
    requires Inv(st) && Enabled(st, Passes(s))
    ensures Inv(Apply(st, Passes(s)))
  {
    var sv := st.services[s];
    assert sv in st.services;
    GlobalGets(st.global, sv.hand.value);
    ServiceSums(st, s, sv.(hand := None));
    OneChanges(st, s, sv.(hand := None));
  }

  lemma ReadsKeepsInv(st: Stack)
    requires Inv(st) && st.global.queue != []
    ensures Inv(Apply(st, Reads))
  {
    ReceiveKeepsRation(st.global);
    ReceiveMovesOne(st.global);
    SumFront(Lines, st.global.queue);
    SumBack(Lines, st.global.received, st.global.queue[0]);
  }

  lemma InvKept(st: Stack, step: Step)
    requires Inv(st) && Enabled(st, step)
    ensures Inv(Apply(st, step))
  {
    match step
    case Starts => StartsKeepsInv(st);
    case Says(s, e) => SaysKeepsInv(st, s, e);
    case Takes(s) => TakesKeepsInv(st, s);
    case Passes(s) => PassesKeepsInv(st, s);
    case Announces(e) =>
      GlobalGets(st.global, e);
      SentMore(st, e);
    case Reads => ReadsKeepsInv(st);
  }

  lemma {:induction false} InvOverRuns(steps: seq<Step>)
    ensures Inv(Exec(steps))
    decreases |steps|
  {
    if steps != [] {
      var before := Exec(steps[..|steps| - 1]);
      InvOverRuns(steps[..|steps| - 1]);
      if Enabled(before, steps[|steps| - 1]) {
        InvKept(before, steps[|steps| - 1]);
      }
    }
  }

  // ── What the user can rely on ─────────────────────────────────────────────

  /**
   No line is lost silently, anywhere in the stack: every line that was sent is
   one the user got, or one the user was told is lost, or it is still on its way
   as the one or the other.
   */
  lemma NoLineIsLostSilently(steps: seq<Step>)
    ensures
      var st := Exec(steps);
      Sum(Lines, st.sent)
      == Sum(Lines, st.global.received) + Sum(Lines, st.global.queue) + st.global.dropped + Sum(LinesAt, st.services)
  {
    InvOverRuns(steps);
  }

  /**
   However many services flood, what the user is told about lost lines is no
   flood: the reports in the global channel and those taken out of it are at
   most what each channel is allowed, one per 1024 lines it lost and one per 513
   it delivered, and those that somebody sent as such.
   */
  lemma ReportsAreRareInAStack(steps: seq<Step>)
    ensures
      var st := Exec(steps);
      Sum(IsReport, Everything(st.global)) <= Allowed(st.global) + Sum(AllowedTo, st.services) + Sum(IsReport, st.sent)
  {
    InvOverRuns(steps);
    var st := Exec(steps);
    OwnAndRelayed(Everything(st.global));
    RationedReports(st.global);
    forall sv <- st.services ensures ReportsBy(sv) <= AllowedTo(sv) {
      RationedReports(sv.chan);
    }
    SumAtMost(ReportsBy, AllowedTo, st.services);
  }

  /** But a channel that only passes reports on can hold many and have lost nothing. */
  lemma RelayedReportsAreExtra(count: nat)
    ensures
      var c := Send(Fresh, LogLinesDropped(count));
      Sum(IsReport, Everything(c)) == 1 && Reports(Everything(c)) == 0 && Allowed(c) == 0
  {
    var c := Send(Fresh, LogLinesDropped(count));
    assert Everything(c) == [Relayed(count)];
    SumOne(IsReport, Relayed(count));
    ReportsOne(Relayed(count));
    CountBack([], Relayed(count));
    assert [] + [Relayed(count)] == [Relayed(count)];
  }

  lemma {:induction false} SumOfBounded<T>(w: T -> nat, most: nat, items: seq<T>)
    requires forall x <- items :: w(x) <= most
    ensures Sum(w, items) <= most * |items|
  {
    if items != [] {
      assert items[|items| - 1] in items;
      assert forall x <- items[..|items| - 1] :: x in items;
      SumOfBounded(w, most, items[..|items| - 1]);
      assert most * |items| == most * (|items| - 1) + most;
    }
  }

  /** The supervisor's heap: 1024 queued lines for each run of a service, and as many for the global channel. */
  lemma TheStackIsBounded(steps: seq<Step>)
    ensures
      var st := Exec(steps);
      Sum(QueuedAt, st.services) + Logs(st.global.queue) <= 1024 * (|st.services| + 1)
  {
    InvOverRuns(steps);
    SumOfBounded(QueuedAt, MAX_QUEUED_LOG_LINES, Exec(steps).services);
  }
}
