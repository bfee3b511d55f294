/**
 The event channel with its sends and receives taken one at a time: what a
 sustained flood of log lines costs in reports about the lines that were lost.
 */
module EventChannel {
  import opened EventProtocol

  /** What one channel holds, and what its receiver has taken out. */
  datatype Chan = Chan(queued: int, dropped: nat, queue: seq<Event>, received: seq<Event>)

  const Fresh := Chan(0, 0, [], [])

  /** Say, and forget, how many lines were lost, if any were. */
  function ReportDrops(c: Chan): Chan {
    if c.dropped == 0 then c
    else c.(dropped := 0, queue := c.queue + [LogLinesDropped(c.dropped)])
  }

  function Send(c: Chan, e: Event): Chan {
    if !e.Log? then c.(queue := c.queue + [Arriving(e)])
    else if c.queued >= MAX_QUEUED_LOG_LINES then
      var d := c.(dropped := c.dropped + 1);
      if d.dropped % REPORT_DROPS_EVERY == 0 then ReportDrops(d) else d
    else
      var d := if c.queued < FLOOD_OVER_BELOW && c.dropped > 0 then ReportDrops(c) else c;
      d.(queued := d.queued + 1, queue := d.queue + [e])
  }

  function Receive(c: Chan): Chan
    requires c.queue != []
  {
    var e := c.queue[0];
    Chan(if e.Log? then c.queued - 1 else c.queued, c.dropped, c.queue[1..], c.received + [e])
  }

  /** Both halves of one channel, with the counters as the code keeps them. */
  class Channel {
    var queued: int
    var dropped: nat
    var queue: seq<Event>
    ghost var received: seq<Event>

    ghost function View(): Chan
      reads this
    {
      Chan(queued, dropped, queue, received)
    }

    ghost predicate Valid()
      reads this
    {
      Rationed(View())
    }

    constructor ()
      ensures Valid() && View() == Fresh
    {
      queued, dropped, queue, received := 0, 0, [], [];
    }

    method ReportLoss()
      modifies this
      ensures View() == ReportDrops(old(View()))
    {
      var count := dropped;
      dropped := 0;
      if count == 0 {
        return;
      }
      queue := queue + [LogLinesDropped(count)];
    }

    /** Publish one event of any kind, another channel's report included. */
    method Publish(e: Event)
      requires Valid()
      modifies this
      ensures Valid() && View() == Send(old(View()), e)
    {
      SendKeepsRation(View(), e);
      Push(e);
    }

    /** The send itself, whatever the counters say. */
    method Push(e: Event)
      modifies this
      ensures View() == Send(old(View()), e)
    {
      if !e.Log? {
        queue := queue + [Arriving(e)];
        return;
      }
      var before := queued;
      queued := queued + 1;
      if before >= MAX_QUEUED_LOG_LINES {
        queued := queued - 1;
        dropped := dropped + 1;
        if dropped % REPORT_DROPS_EVERY == 0 {
          ReportLoss();
        }
        return;
      }
      if before < FLOOD_OVER_BELOW && dropped > 0 {
        ReportLoss();
      }
      queue := queue + [e];
    }

    /** The oldest event comes out; a log line makes room for another. */
    method TryReceive() returns (e: Event)
      requires Valid() && queue != []
      modifies this
      ensures Valid() && e == old(queue[0]) && View() == Receive(old(View()))
    {
      ReceiveKeepsRation(View());
      e := queue[0];
      queue := queue[1..];
      received := received + [e];
      if e.Log? {
        queued := queued - 1;
      }
    }
  }

  // ── Runs ──────────────────────────────────────────────────────────────────

  /** One operation on the channel by its users. */
  datatype Op = Sends(event: Event) | Receives

  /** Any sequence of sends and receives; receiving from an empty channel does nothing. */
  function Run(ops: seq<Op>): Chan
    ensures Rationed(Run(ops))
    decreases |ops|
  {
    if ops == [] then Fresh
    else
      var before := Run(ops[..|ops| - 1]);
      match ops[|ops| - 1]
      case Sends(e) => SendKeepsRation(before, e); Send(before, e)
      case Receives =>
        if before.queue == [] then before
        else ReceiveKeepsRation(before); Receive(before)
  }

  /** Everything that ever entered the channel. */
  function Everything(c: Chan): seq<Event> {
    c.received + c.queue
  }

  /** Reports forced by the backstop: those that account for a full batch. */
  function Backstops(events: seq<Event>): nat {
    if events == [] then 0
    else
      var e := events[|events| - 1];
      Backstops(events[..|events| - 1]) + (if e.LogLinesDropped? && e.count == REPORT_DROPS_EVERY then 1 else 0)
  }

  /** Reports because the flood let up. */
  function LetUps(events: seq<Event>): nat {
    if events == [] then 0
    else
      var e := events[|events| - 1];
      LetUps(events[..|events| - 1]) + (if e.LogLinesDropped? && e.count != REPORT_DROPS_EVERY then 1 else 0)
  }

  /** The reports this channel wrote itself. */
  function Reports(events: seq<Event>): nat {
    Backstops(events) + LetUps(events)
  }

  /** The reports of other channels. */
  function Relays(events: seq<Event>): nat {
    if events == [] then 0
    else Relays(events[..|events| - 1]) + (if events[|events| - 1].Relayed? then 1 else 0)
  }

  /** How many lines this channel lost so far, reported or not. */
  function Lost(c: Chan): nat {
    Reported(Everything(c)) + c.dropped
  }

  /** The totals the bound is about. */
  datatype Tally = Tally(backstops: nat, letUps: nat, reported: nat, queuedLogs: nat, deliveredLogs: nat)

  function Tallied(c: Chan): Tally {
    var all := Everything(c);
    Tally(Backstops(all), LetUps(all), Reported(all), Logs(c.queue), Logs(c.received))
  }

  /**
   Every backstop stands for a batch of 1024 lost lines; every let-up, the next
   one included, for the 513 deliveries that take a full channel below half.
   */
  predicate Sound(t: Tally, queued: int, dropped: nat) {
    && queued == t.queuedLogs <= MAX_QUEUED_LOG_LINES
    && dropped < REPORT_DROPS_EVERY
    && 1024 * t.backstops + t.letUps <= t.reported
    && 513 * t.letUps + (if dropped > 0 then MAX_QUEUED_LOG_LINES - queued else 0) <= t.deliveredLogs
  }

  ghost predicate Rationed(c: Chan) {
    Sound(Tallied(c), c.queued, c.dropped)
  }

  /** What one more event adds. */
  function Counting(t: Tally, e: Event): Tally {
    match e
    case Log(_) => t.(queuedLogs := t.queuedLogs + 1)
    case Relayed(_) => t
    case Other => t
    case LogLinesDropped(n) =>
      if n == REPORT_DROPS_EVERY then t.(backstops := t.backstops + 1, reported := t.reported + n)
      else t.(letUps := t.letUps + 1, reported := t.reported + n)
  }

  lemma AppendCounts(c: Chan, e: Event)
    ensures Tallied(c.(queue := c.queue + [e])) == Counting(Tallied(c), e)
  {
    var d := c.(queue := c.queue + [e]);
    assert Everything(d)[..|Everything(c)|] == Everything(c);
    assert d.queue[..|c.queue|] == c.queue;
  }

  lemma ReportCounts(c: Chan)
    ensures Tallied(ReportDrops(c)) ==
              if c.dropped == 0 then Tallied(c) else Counting(Tallied(c), LogLinesDropped(c.dropped))
  {
    AppendCounts(c, LogLinesDropped(c.dropped));
  }

  /** What a send adds to the tally, branch by branch. */
  function CountingSend(t: Tally, queued: int, dropped: nat, e: Event): Tally {
    if !e.Log? then t
    else if queued >= MAX_QUEUED_LOG_LINES then
      if (dropped + 1) % REPORT_DROPS_EVERY == 0 then Counting(t, LogLinesDropped(dropped + 1)) else t
    else if queued < FLOOD_OVER_BELOW && dropped > 0 then Counting(Counting(t, LogLinesDropped(dropped)), e)
    else Counting(t, e)
  }

  /** The tally looks at the events only. */
  lemma TallyIgnoresCounters(c: Chan, queued: int, dropped: nat)
    ensures Tallied(c.(queued := queued, dropped := dropped)) == Tallied(c)
  {
    assert Everything(c.(queued := queued, dropped := dropped)) == Everything(c);
  }

  lemma RefusalCounts(c: Chan, e: Event)
    requires e.Log? && c.queued >= MAX_QUEUED_LOG_LINES
    ensures Tallied(Send(c, e)) == CountingSend(Tallied(c), c.queued, c.dropped, e)
  {
    var d := c.(dropped := c.dropped + 1);
    TallyIgnoresCounters(c, c.queued, c.dropped + 1);
    if d.dropped % REPORT_DROPS_EVERY == 0 {
      ReportCounts(d);
    }
  }

  lemma AdmissionCounts(c: Chan, e: Event)
    requires e.Log? && c.queued < MAX_QUEUED_LOG_LINES
    ensures Tallied(Send(c, e)) == CountingSend(Tallied(c), c.queued, c.dropped, e)
  {
    var d := if c.queued < FLOOD_OVER_BELOW && c.dropped > 0 then ReportDrops(c) else c;
    if c.queued < FLOOD_OVER_BELOW && c.dropped > 0 {
      ReportCounts(c);
    }
    AppendCounts(d, e);
    TallyIgnoresCounters(d.(queue := d.queue + [e]), d.queued + 1, d.dropped);
  }

  lemma SendCounts(c: Chan, e: Event)
    ensures Tallied(Send(c, e)) == CountingSend(Tallied(c), c.queued, c.dropped, e)
  {
    if !e.Log? {
      AppendCounts(c, Arriving(e));
    } else if c.queued >= MAX_QUEUED_LOG_LINES {
      RefusalCounts(c, e);
    } else {
      AdmissionCounts(c, e);
    }
  }

  function DroppedAfter(queued: int, dropped: nat, e: Event): nat {
    if !e.Log? then dropped
    else if queued >= MAX_QUEUED_LOG_LINES then (if (dropped + 1) % REPORT_DROPS_EVERY == 0 then 0 else dropped + 1)
    else if queued < FLOOD_OVER_BELOW then 0 else dropped
  }

  lemma SendKeepsSound(t: Tally, queued: int, dropped: nat, e: Event)
    requires Sound(t, queued, dropped)
    ensures Sound(CountingSend(t, queued, dropped, e),
              if e.Log? && queued < MAX_QUEUED_LOG_LINES then queued + 1 else queued, DroppedAfter(queued, dropped, e))
  {
    assert (dropped + 1) % REPORT_DROPS_EVERY == 0 <==> dropped + 1 == REPORT_DROPS_EVERY;
  }

  lemma CountersAfterSend(c: Chan, e: Event)
    ensures Send(c, e).dropped == DroppedAfter(c.queued, c.dropped, e)
    ensures Send(c, e).queued == if e.Log? && c.queued < MAX_QUEUED_LOG_LINES then c.queued + 1 else c.queued
  {
  }

  lemma SendKeepsRation(c: Chan, e: Event)
    requires Rationed(c)
    ensures Rationed(Send(c, e))
  {
    SendCounts(c, e);
    CountersAfterSend(c, e);
    SendKeepsSound(Tallied(c), c.queued, c.dropped, e);
  }

  /** What a receive does to the tally: the event counts as delivered and no longer as queued. */
  function CountingReceive(t: Tally, isLog: bool): Tally
    requires isLog ==> t.queuedLogs > 0
  {
    if isLog then t.(queuedLogs := t.queuedLogs - 1, deliveredLogs := t.deliveredLogs + 1) else t
  }

  lemma ReceiveMovesOne(c: Chan)
    requires c.queue != []
    ensures Everything(Receive(c)) == Everything(c)
  {
  }

  lemma ReceiveCounts(c: Chan)
    requires c.queue != []
    ensures c.queue[0].Log? ==> Logs(c.queue) > 0
    ensures Tallied(Receive(c)) == CountingReceive(Tallied(c), c.queue[0].Log?)
  {
    ReceiveMovesOne(c);
    CountFront(c.queue);
    CountBack(c.received, c.queue[0]);
  }

  lemma ReceiveKeepsRation(c: Chan)
    requires Rationed(c) && c.queue != []
    ensures Rationed(Receive(c))
  {
    ReceiveCounts(c);
  }

  /** What the hysteresis allows a channel: one report per 1024 lines lost and one per 513 log lines delivered. */
  function Allowed(c: Chan): nat {
    Lost(c) / 1024 + Logs(c.received) / 513
  }

  lemma RationedReports(c: Chan)
    requires Rationed(c)
    ensures Reports(Everything(c)) <= Allowed(c)
  {
    var t := Tallied(c);
    assert t.backstops <= (t.reported + c.dropped) / 1024;
    assert t.letUps <= t.deliveredLogs / 513;
  }

  // ── What is not a log line ────────────────────────────────────────────────

  /** The events that were not written by the channel and are no log lines. */
  function Passed(events: seq<Event>): seq<Event> {
    if events == [] then []
    else Passed(events[..|events| - 1]) + Passing(events[|events| - 1])
  }

  function Passing(e: Event): seq<Event> {
    if e.Log? || e.LogLinesDropped? then [] else [e]
  }

  /** The events other than log lines that were handed to `send`, as they arrive. */
  function Handed(ops: seq<Op>): seq<Event> {
    if ops == [] then []
    else
      var op := ops[|ops| - 1];
      Handed(ops[..|ops| - 1]) + (if op.Sends? then Passing(Arriving(op.event)) else [])
  }

  lemma {:induction false} PassedTogether(events: seq<Event>, more: seq<Event>)
    ensures Passed(events + more) == Passed(events) + Passed(more)
    ensures Relays(events + more) == Relays(events) + Relays(more)
  {
    if more == [] {
      assert events + more == events;
    } else {
      assert (events + more)[..|events + more| - 1] == events + more[..|more| - 1];
      PassedTogether(events, more[..|more| - 1]);
    }
  }

  /** The report, if any, that a log line makes the channel write. */
  function Report(c: Chan): seq<Event> {
    if c.queued >= MAX_QUEUED_LOG_LINES then
      if (c.dropped + 1) % REPORT_DROPS_EVERY == 0 then [LogLinesDropped(c.dropped + 1)] else []
    else if c.queued < FLOOD_OVER_BELOW && c.dropped > 0 then [LogLinesDropped(c.dropped)] else []
  }

  /** All that a send puts into the channel. */
  function Added(c: Chan, e: Event): seq<Event> {
    if !e.Log? then [Arriving(e)]
    else Report(c) + (if c.queued < MAX_QUEUED_LOG_LINES then [e] else [])
  }

  lemma SendAdds(c: Chan, e: Event)
    ensures Send(c, e).queue == c.queue + Added(c, e) && Send(c, e).received == c.received
    ensures Everything(Send(c, e)) == Everything(c) + Added(c, e)
  {
  }

  lemma PassedOne(e: Event)
    ensures Passed([e]) == Passing(e)
    ensures Relays([e]) == if e.Relayed? then 1 else 0
  {
    assert [e][..0] == [];
  }

  lemma AddedPasses(c: Chan, e: Event)
    ensures Passed(Added(c, e)) == Passing(Arriving(e))
    ensures Relays(Added(c, e)) == if Arriving(e).Relayed? then 1 else 0
  {
    PassedOne(Arriving(e));
    if e.Log? {
      var own, line := Report(c), if c.queued < MAX_QUEUED_LOG_LINES then [e] else [];
      PassedTogether(own, line);
      if own != [] {
        PassedOne(own[0]);
      }
    }
  }

  lemma SendPasses(c: Chan, e: Event)
    ensures Passed(Everything(Send(c, e))) == Passed(Everything(c)) + Passing(Arriving(e))
    ensures Relays(Everything(Send(c, e))) == Relays(Everything(c)) + (if Arriving(e).Relayed? then 1 else 0)
  {
    SendAdds(c, e);
    AddedPasses(c, e);
    PassedTogether(Everything(c), Added(c, e));
  }

  /**
   Only log lines are ever dropped: everything else that is sent, the reports
   of other channels among it, enters the channel in the order it was sent and
   with nothing changed.
   */
  lemma {:induction false} NothingElseIsDropped(ops: seq<Op>)
    ensures Passed(Everything(Run(ops))) == Handed(ops)
    decreases |ops|
  {
    if ops != [] {
      var before := Run(ops[..|ops| - 1]);
      NothingElseIsDropped(ops[..|ops| - 1]);
      match ops[|ops| - 1]
      case Sends(e) =>
        SendPasses(before, e);
      case Receives =>
        if before.queue != [] {
          ReceiveMovesOne(before);
        }
    }
  }

  lemma {:induction false} RelaysArePassed(events: seq<Event>)
    ensures Relays(Passed(events)) == Relays(events)
  {
    if events != [] {
      RelaysArePassed(events[..|events| - 1]);
      PassedTogether(Passed(events[..|events| - 1]), Passing(events[|events| - 1]));
    }
  }

  /**
   The hysteresis bound: whatever mixture of sends and receives, the number of
   reports the channel writes is at most one per 1024 lines it lost plus one
   per 513 log lines delivered, so a flood is never reported once per delivered
   line.  A reader sees those and the reports that were sent through the
   channel, each once.
   */
  lemma ReportsAreRare(ops: seq<Op>)
    ensures
      var c := Run(ops);
      Reports(Everything(c)) <= Lost(c) / 1024 + Logs(c.received) / 513
    ensures Relays(Everything(Run(ops))) == Relays(Handed(ops))
  {
    RationedReports(Run(ops));
    NothingElseIsDropped(ops);
    RelaysArePassed(Everything(Run(ops)));
  }

  /** Log lines asked for in a run. */
  function Asked(ops: seq<Op>): nat {
    if ops == [] then 0
    else
      var op := ops[|ops| - 1];
      Asked(ops[..|ops| - 1]) + (if op.Sends? && op.event.Log? then 1 else 0)
  }

  /** Every line asked for is delivered, queued or counted as lost. */
  lemma {:induction false} EveryLineIsKnown(ops: seq<Op>)
    ensures Asked(ops) == Known(Run(ops))
    decreases |ops|
  {
    if ops != [] {
      var before := Run(ops[..|ops| - 1]);
      EveryLineIsKnown(ops[..|ops| - 1]);
      match ops[|ops| - 1]
      case Sends(e) =>
        SendIsKnown(before, e);
      case Receives =>
        if before.queue != [] {
          ReceiveIsKnown(before);
        }
    }
  }

  lemma SendLosesTally(t: Tally, queued: int, dropped: nat, e: Event)
    ensures CountingSend(t, queued, dropped, e).reported + DroppedAfter(queued, dropped, e)
         == t.reported + dropped + (if e.Log? && queued >= 1024 then 1 else 0)
  {
  }

  lemma SendLoses(c: Chan, e: Event)
    ensures Lost(Send(c, e)) == Lost(c) + (if e.Log? && c.queued >= 1024 then 1 else 0)
  {
    SendCounts(c, e);
    CountersAfterSend(c, e);
    SendLosesTally(Tallied(c), c.queued, c.dropped, e);
    LostIsTallied(c);
    LostIsTallied(Send(c, e));
  }

  lemma LostIsTallied(c: Chan)
    ensures Lost(c) == Tallied(c).reported + c.dropped
  {
  }

  lemma SendOfALine(c: Chan, line: Line)
    requires 0 <= c.queued <= 1024 && c.dropped < 1024
    ensures
      var d := Send(c, Log(line));
      && (c.queued < 1024 ==>
            && d.queue == c.queue + (if c.queued < 512 && c.dropped > 0 then [LogLinesDropped(c.dropped)] else [])
                          + [Log(line)]
            && d.dropped == if c.queued < 512 then 0 else c.dropped)
      && (c.queued == 1024 ==>
            && d.queue == c.queue + (if c.dropped == 1023 then [LogLinesDropped(1024)] else [])
            && d.dropped == if c.dropped == 1023 then 0 else c.dropped + 1)
  {
  }

  /**
   A line is let in exactly while fewer than 1024 are queued, last in the
   channel and without any loss; with 1024 queued that line is lost and nothing
   else is.  The reports are those of the 1024th loss, and of the first line let
   in with fewer than 512 queued.
   */
  lemma ThereIsRoomFor1024(ops: seq<Op>, line: Line)
    ensures
      var c, d := Run(ops), Send(Run(ops), Log(line));
      var queued := Logs(c.queue);
      && queued <= 1024 && d.received == c.received
      && (queued < 1024 ==>
            && d.queue == c.queue + (if queued < 512 && c.dropped > 0 then [LogLinesDropped(c.dropped)] else [])
                          + [Log(line)]
            && d.dropped == (if queued < 512 then 0 else c.dropped) && Lost(d) == Lost(c))
      && (queued == 1024 ==>
            && d.queue == c.queue + (if c.dropped == 1023 then [LogLinesDropped(1024)] else [])
            && d.dropped == (if c.dropped == 1023 then 0 else c.dropped + 1) && Lost(d) == Lost(c) + 1)
  {
    var c := Run(ops);
    RationedMeans(c);
    SendOfALine(c, line);
    SendLoses(c, Log(line));
  }

  lemma RationedMeans(c: Chan)
    requires Rationed(c)
    ensures c.queued == Logs(c.queue) <= 1024 && c.dropped < 1024
  {
  }

  /**
   Nor is loss passed over: fewer than a batch of lost lines is ever
   unreported, and sending a line into a channel at less than half its
   allowance leaves nothing unreported.
   */
  lemma LossIsReported(ops: seq<Op>, line: Line)
    ensures Run(ops).dropped < 1024
    ensures Logs(Run(ops).queue) < 512 ==> Send(Run(ops), Log(line)).dropped == 0
  {
    RationedMeans(Run(ops));
  }

  /** The lines that are queued, delivered or counted as lost. */
  function Known(c: Chan): nat {
    Logs(c.queue) + Logs(c.received) + Lost(c)
  }

  /** The lines a tally knows of, and those lost and not yet reported. */
  function KnownTo(t: Tally, dropped: nat): nat {
    t.queuedLogs + t.deliveredLogs + t.reported + dropped
  }

  lemma SendKeepsTallyKnown(t: Tally, queued: int, dropped: nat, e: Event)
    ensures KnownTo(CountingSend(t, queued, dropped, e), DroppedAfter(queued, dropped, e))
         == KnownTo(t, dropped) + (if e.Log? then 1 else 0)
  {
  }

  lemma SendIsKnown(c: Chan, e: Event)
    requires Rationed(c)
    ensures Known(Send(c, e)) == Known(c) + (if e.Log? then 1 else 0)
  {
    SendCounts(c, e);
    CountersAfterSend(c, e);
    SendKeepsTallyKnown(Tallied(c), c.queued, c.dropped, e);
    KnownIsTallied(c);
    KnownIsTallied(Send(c, e));
  }

  lemma KnownIsTallied(c: Chan)
    ensures Known(c) == KnownTo(Tallied(c), c.dropped)
  {
  }

  lemma ReceiveIsKnown(c: Chan)
    requires c.queue != []
    ensures Known(Receive(c)) == Known(c)
  {
    ReceiveCounts(c);
    var t := Tallied(Receive(c));
    assert Known(Receive(c)) == t.queuedLogs + t.deliveredLogs + t.reported + c.dropped;
  }

  // ── The sequential channel is what the protocol does without interference ──

  /** What a sequential reader sees of a protocol state. */
  function Seen(st: State): Chan {
    Chan(st.queued, st.dropped, st.queue, st.received)
  }

  function Try(st: State, step: Step): State {
    if Enabled(st, step) then Apply(st, step) else st
  }

  /** Let sender `s` try the listed operations in turn. */
  function TryAll(st: State, s: nat, moves: seq<Move>): State
    decreases |moves|
  {
    if moves == [] then st else TryAll(Try(st, By(s, moves[0])), s, moves[1..])
  }

  /** All the atomic operations of one call of `send`, in program order. */
  const OneSend := [FetchAdd] + ([BackOut] + ([CountDrop] + ([LookAtDrops] + SendTail)))
  const SendTail := [SwapDrops] + ([Announce] + ([Push] + ([Undo] + [])))

  lemma TryTwo(st: State, s: nat, a: Move, rest: seq<Move>)
    ensures TryAll(st, s, [a] + rest) == TryAll(Try(st, By(s, a)), s, rest)
  {
  }

  /** From the swap of the drop count to the end of the call. */
  lemma FinishSend(st: State, s: nat)
    requires !st.receiver.Gone? && s < |st.senders| && s < |st.sent|
    requires st.senders[s].Resting? || st.senders[s].Reporting? || st.senders[s].Pushing?
    ensures
      var p := st.senders[s];
      var told := if p.Reporting? then ReportDrops(Seen(st)) else Seen(st);
      var t := TryAll(st, s, SendTail);
      && t.senders == st.senders[s := Resting]
      && Seen(t) == if p.Pushing? then told.(queue := told.queue + [Log(p.line)])
                    else if p.Reporting? && p.next.ThenPush? then told.(queue := told.queue + [Log(p.next.line)])
                    else told
  {
    TryTwo(st, s, SwapDrops, [Announce] + ([Push] + ([Undo] + [])));
    var swapped := Try(st, By(s, SwapDrops));
    TryTwo(swapped, s, Announce, [Push] + ([Undo] + []));
    var announced := Try(swapped, By(s, Announce));
    TryTwo(announced, s, Push, [Undo] + []);
    TryTwo(Try(announced, By(s, Push)), s, Undo, []);
  }

  /** The state once a call has counted its line in, or counted it as dropped. */
  function CountedIn(st: State, s: nat): State
    requires s < |st.senders| && s < |st.sent|
  {
    var line := Line(s, st.sent[s]);
    var sent := st.sent[s := st.sent[s] + 1];
    if st.queued >= MAX_QUEUED_LOG_LINES then
      var p := if (st.dropped + 1) % REPORT_DROPS_EVERY == 0 then Reporting(ThenReturn) else Resting;
      st.(dropped := st.dropped + 1, senders := st.senders[s := p], sent := sent)
    else
      var p := if st.queued < FLOOD_OVER_BELOW && st.dropped > 0 then Reporting(ThenPush(line)) else Pushing(line);
      st.(queued := st.queued + 1, senders := st.senders[s := p], sent := sent)
  }

  lemma CountingIn(st: State, s: nat)
    requires s < |st.senders| && s < |st.sent| && st.senders[s].Resting?
    ensures
      var counted := Try(st, By(s, FetchAdd));
      Try(Try(Try(counted, By(s, BackOut)), By(s, CountDrop)), By(s, LookAtDrops)) == CountedIn(st, s)
  {
  }

  lemma BeginSend(st: State, s: nat, rest: seq<Move>)
    requires s < |st.senders| && s < |st.sent| && st.senders[s].Resting?
    ensures TryAll(st, s, [FetchAdd] + ([BackOut] + ([CountDrop] + ([LookAtDrops] + rest))))
         == TryAll(CountedIn(st, s), s, rest)
  {
    TryTwo(st, s, FetchAdd, [BackOut] + ([CountDrop] + ([LookAtDrops] + rest)));
    var counted := Try(st, By(s, FetchAdd));
    TryTwo(counted, s, BackOut, [CountDrop] + ([LookAtDrops] + rest));
    var backed := Try(counted, By(s, BackOut));
    TryTwo(backed, s, CountDrop, [LookAtDrops] + rest);
    TryTwo(Try(backed, By(s, CountDrop)), s, LookAtDrops, rest);
    CountingIn(st, s);
  }

  /**
   Uninterrupted, the steps of one `send` of a line are the sequential `Send`,
   and the call is over; so is the one step of sending anything else.
   */
  lemma SendAloneIsSend(st: State, s: nat)
    requires !st.receiver.Gone? && s < |st.senders| && s < |st.sent| && st.senders[s].Resting?
    ensures
      var t := TryAll(st, s, OneSend);
      && Seen(t) == Send(Seen(st), Log(Line(s, st.sent[s])))
      && t.senders == st.senders
    ensures forall e: Event | !e.Log? :: Seen(Try(st, By(s, SendOther(e)))) == Send(Seen(st), e)
  {
    BeginSend(st, s, SendTail);
    FinishSend(CountedIn(st, s), s);
    assert CountedIn(st, s).senders[s := Resting] == st.senders;
  }

  /** And the two steps of a receive are the sequential `Receive`. */
  lemma ReceiveAloneIsReceive(st: State)
    requires st.receiver.Waiting? && st.queue != []
    ensures
      var t := Try(Try(st, Pop), Release);
      t.receiver.Waiting? && Seen(t) == Receive(Seen(st))
  {
  }
}
