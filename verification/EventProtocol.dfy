/**
 The log-line allowance of the event channel, with every atomic operation and
 every push and pop of the queue as one step of its own, for any number of
 senders and one receiver.
 */
module EventProtocol {

  const MAX_QUEUED_LOG_LINES: nat := 1024
  const REPORT_DROPS_EVERY: nat := 1024
  const FLOOD_OVER_BELOW: nat := MAX_QUEUED_LOG_LINES / 2

  /** A log line: who sent it, and which of that sender's lines it is. */
  datatype Line = Line(sender: nat, number: nat)

  /**
   What goes through a channel.  `Relayed` is a report of lost lines that the
   channel did not write itself: the stack passes the events of every service's
   channel on to the global one.  Readers see it as they see the channel's own
   reports.
   */
  datatype Event = Log(line: Line) | LogLinesDropped(count: nat) | Relayed(count: nat) | Other

  /** What an event that somebody sends is from then on: a report is somebody else's. */
  function Arriving(e: Event): Event {
    if e.LogLinesDropped? then Relayed(e.count) else e
  }

  /** What a sender does once it has reported drops. */
  datatype After = ThenReturn | ThenPush(line: Line)

  /** Where one call of `send` stands. */
  datatype Sender =
    | Resting
    | Over(line: Line)                        // counted in, and one too many
    | ToDrop(line: Line)                      // counted out again
    | Admitted(line: Line, queuedBefore: int) // counted in, and there is room
    | Reporting(next: After)                  // about to take the drop count
    | Announcing(count: nat, next: After)     // took it, about to publish it
    | Pushing(line: Line)                     // about to hand the line over
    | Refused(line: Line)                     // the receiver is gone

  datatype Receiver = Waiting | Releasing | Gone

  datatype State = State(
    queued: int,            // the atomic counters
    dropped: nat,
    queue: seq<Event>,      // the channel
    receiver: Receiver,
    senders: seq<Sender>,
    // What happened so far.
    sent: seq<nat>,         // per sender, how many lines it was asked to send
    received: seq<Event>,   // everything the receiver took out
    leaked: nat)            // allowance the receiver took with it

  /** The atomic operations of `send`, in program order. */
  datatype Move =
    | SendOther(event: Event) // anything but a log line
    | FetchAdd
    | BackOut
    | CountDrop
    | LookAtDrops
    | SwapDrops
    | Announce
    | Push
    | Undo

  datatype Step = Clone | By(s: nat, move: Move) | Pop | Release | Leave

  /** A fresh channel with one sender. */
  const Init := State(0, 0, [], Waiting, [Resting], [0], [], 0)

  predicate Enabled(st: State, step: Step) {
    match step
    case Clone => true
    case Pop => st.receiver.Waiting? && st.queue != []
    case Release => st.receiver.Releasing?
    case Leave => !st.receiver.Gone?
    case By(s, move) => s < |st.senders| && s < |st.sent| && CanMove(st.senders[s], move)
  }

  predicate CanMove(p: Sender, move: Move) {
    match move
    case SendOther(event) => p.Resting? && !event.Log?
    case FetchAdd => p.Resting?
    case BackOut => p.Over?
    case CountDrop => p.ToDrop?
    case LookAtDrops => p.Admitted?
    case SwapDrops => p.Reporting?
    case Announce => p.Announcing?
    case Push => p.Pushing?
    case Undo => p.Refused?
  }

  function Continue(next: After): Sender {
    match next
    case ThenReturn => Resting
    case ThenPush(line) => Pushing(line)
  }

  function Goto(st: State, s: nat, p: Sender): State
    requires s < |st.senders|
  {
    st.(senders := st.senders[s := p])
  }

  /** Hand an event to the channel; without a receiver it is lost. */
  function Enqueue(st: State, e: Event): State {
    if st.receiver.Gone? then st else st.(queue := st.queue + [e])
  }

  function Apply(st: State, step: Step): State
    requires Enabled(st, step)
  {
    match step
    case Clone => st.(senders := st.senders + [Resting], sent := st.sent + [0])
    case Pop =>
      var e := st.queue[0];
      st.(queue := st.queue[1..], received := st.received + [e],
          receiver := if e.Log? then Releasing else Waiting)
    case Release => st.(queued := st.queued - 1, receiver := Waiting)
    case Leave =>
      st.(receiver := Gone, queue := [],
          leaked := Logs(st.queue) + (if st.receiver.Releasing? then 1 else 0))
    case By(s, move) => MoveSender(st, s, move)
  }

  function MoveSender(st: State, s: nat, move: Move): State
    requires s < |st.senders| && s < |st.sent| && CanMove(st.senders[s], move)
  {
    var p := st.senders[s];
    match move
    case SendOther(event) => Enqueue(st, Arriving(event))
    case FetchAdd =>
      var line := Line(s, st.sent[s]);
      Goto(st.(queued := st.queued + 1, sent := st.sent[s := st.sent[s] + 1]), s,
           if st.queued >= MAX_QUEUED_LOG_LINES then Over(line) else Admitted(line, st.queued))
    case BackOut => Goto(st.(queued := st.queued - 1), s, ToDrop(p.line))
    case CountDrop =>
      Goto(st.(dropped := st.dropped + 1), s,
           if (st.dropped + 1) % REPORT_DROPS_EVERY == 0 then Reporting(ThenReturn) else Resting)
    case LookAtDrops =>
      // The load happens only for a line that found the flood over.
      Goto(st, s, if p.queuedBefore < FLOOD_OVER_BELOW && st.dropped > 0
                  then Reporting(ThenPush(p.line)) else Pushing(p.line))
    case SwapDrops =>
      Goto(st.(dropped := 0), s,
           if st.dropped == 0 then Continue(p.next) else Announcing(st.dropped, p.next))
    case Announce => Goto(Enqueue(st, LogLinesDropped(p.count)), s, Continue(p.next))
    case Push =>
      if st.receiver.Gone? then Goto(st, s, Refused(p.line))
      else Goto(Enqueue(st, Log(p.line)), s, Resting)
    case Undo => Goto(st.(queued := st.queued - 1), s, Resting)
  }

  /** Any interleaving; a step that cannot be taken is passed over. */
  function Exec(steps: seq<Step>): State
    decreases |steps|
  {
    if steps == [] then Init
    else
      var before := Exec(steps[..|steps| - 1]);
      var step := steps[|steps| - 1];
      if Enabled(before, step) then Apply(before, step) else before
  }

  // ── Counting ──────────────────────────────────────────────────────────────

  function Logs(events: seq<Event>): nat {
    if events == [] then 0
    else Logs(events[..|events| - 1]) + (if events[|events| - 1].Log? then 1 else 0)
  }

  /** How many lost lines the channel's own reports among these events account for. */
  function Reported(events: seq<Event>): nat {
    if events == [] then 0
    else
      var e := events[|events| - 1];
      Reported(events[..|events| - 1]) + (if e.LogLinesDropped? then e.count else 0)
  }

  /** What one sender contributes to a total. */
  type Weight = Sender -> nat

  function Sum(w: Weight, senders: seq<Sender>): nat {
    if senders == [] then 0
    else Sum(w, senders[..|senders| - 1]) + w(senders[|senders| - 1])
  }

  /** Calls that own a place in the channel they have not used yet. */
  function Places(p: Sender): nat {
    match p
    case Admitted(_, _) => 1
    case Reporting(ThenPush(_)) => 1
    case Announcing(_, ThenPush(_)) => 1
    case Pushing(_) => 1
    case Refused(_) => 1
    case _ => 0
  }

  /** Calls that counted themselves in although there was no place. */
  function Excess(p: Sender): nat {
    if p.Over? then 1 else 0
  }

  /** Lines a call has in hand, and drops it took and has not published. */
  function InFlight(p: Sender): nat {
    Places(p) + Excess(p) + (if p.ToDrop? then 1 else 0) + (if p.Announcing? then p.count else 0)
  }

  function Total(numbers: seq<nat>): nat {
    if numbers == [] then 0 else Total(numbers[..|numbers| - 1]) + numbers[|numbers| - 1]
  }

  lemma {:induction false} SumUpdate(w: Weight, senders: seq<Sender>, s: nat, p: Sender)
    requires s < |senders|
    ensures Sum(w, senders[s := p]) == Sum(w, senders) - w(senders[s]) + w(p)
    ensures w(senders[s]) <= Sum(w, senders)
  {
    var n := |senders| - 1;
    if s == n {
      assert senders[s := p][..n] == senders[..n];
    } else {
      assert senders[s := p][..n] == senders[..n][s := p];
      SumUpdate(w, senders[..n], s, p);
    }
  }

  lemma {:induction false} TotalUpdate(numbers: seq<nat>, s: nat)
    requires s < |numbers|
    ensures Total(numbers[s := numbers[s] + 1]) == Total(numbers) + 1
  {
    var n := |numbers| - 1;
    if s == n {
      assert numbers[s := numbers[s] + 1][..n] == numbers[..n];
    } else {
      assert numbers[s := numbers[s] + 1][..n] == numbers[..n][s := numbers[s] + 1];
      TotalUpdate(numbers[..n], s);
    }
  }

  lemma {:induction false} CountFront(events: seq<Event>)
    requires events != []
    ensures Logs(events) == (if events[0].Log? then 1 else 0) + Logs(events[1..])
    ensures Reported(events) == (if events[0].LogLinesDropped? then events[0].count else 0) + Reported(events[1..])
  {
    if |events| > 1 {
      CountFront(events[..|events| - 1]);
      assert events[..|events| - 1][1..] == events[1..][..|events| - 2];
    }
  }

  lemma CountBack(events: seq<Event>, e: Event)
    ensures Logs(events + [e]) == Logs(events) + (if e.Log? then 1 else 0)
    ensures Reported(events + [e]) == Reported(events) + (if e.LogLinesDropped? then e.count else 0)
  {
    assert (events + [e])[..|events|] == events;
  }

  // ── The invariant ─────────────────────────────────────────────────────────

  /** What the counter counts, always. */
  ghost predicate Counted(st: State) {
    && |st.sent| == |st.senders|
    && (st.receiver.Gone? ==> st.queue == [])
    && (!st.receiver.Gone? ==> forall p <- st.senders :: !p.Refused?)
    && (!st.receiver.Gone? ==> st.leaked == 0)
    && st.queued == Held(st) + Sum(Excess, st.senders)
  }

  /** The allowance in use: lines in the channel, on their way in, or on their way out. */
  function Held(st: State): nat {
    Logs(st.queue) + Sum(Places, st.senders) + st.leaked + (if st.receiver.Releasing? then 1 else 0)
  }

  ghost predicate Bounded(st: State) {
    Held(st) <= MAX_QUEUED_LOG_LINES
  }

  /** No line goes missing without being counted, while somebody is listening. */
  ghost predicate Conserved(st: State) {
    !st.receiver.Gone? ==>
      Total(st.sent) == Logs(st.queue) + Logs(st.received) + Reported(st.queue) + Reported(st.received)
                        + st.dropped + Sum(InFlight, st.senders)
  }

  ghost predicate Inv(st: State) {
    Counted(st) && Bounded(st) && Conserved(st)
  }

  lemma SenderSums(st: State, s: nat, p: Sender)
    requires s < |st.senders|
    ensures
      var q := st.senders[s];
      var ps := st.senders[s := p];
      && Sum(Places, ps) == Sum(Places, st.senders) - Places(q) + Places(p)
      && Sum(Excess, ps) == Sum(Excess, st.senders) - Excess(q) + Excess(p)
      && Sum(InFlight, ps) == Sum(InFlight, st.senders) - InFlight(q) + InFlight(p)
      && Places(q) <= Sum(Places, st.senders) && Excess(q) <= Sum(Excess, st.senders)
  {
    SumUpdate(Places, st.senders, s, p);
    SumUpdate(Excess, st.senders, s, p);
    SumUpdate(InFlight, st.senders, s, p);
  }

  lemma SentAfterMove(st: State, s: nat, move: Move)
    requires |st.sent| == |st.senders|
    requires s < |st.senders| && CanMove(st.senders[s], move)
    ensures
      var t := MoveSender(st, s, move);
      && |t.senders| == |t.sent| == |st.senders|
      && t.senders == st.senders[s := t.senders[s]]
      && Total(t.sent) == Total(st.sent) + (if move.FetchAdd? then 1 else 0)
  {
    if move.FetchAdd? {
      TotalUpdate(st.sent, s);
    }
  }

  /** How the totals change when sender `s` moves. */
  lemma MoveTotals(st: State, s: nat, move: Move)
    requires |st.sent| == |st.senders|
    requires s < |st.senders| && CanMove(st.senders[s], move)
    ensures
      var t := MoveSender(st, s, move);
      && |t.senders| == |t.sent| == |st.senders|
      && Sum(Places, t.senders) == Sum(Places, st.senders) - Places(st.senders[s]) + Places(t.senders[s])
      && Sum(Excess, t.senders) == Sum(Excess, st.senders) - Excess(st.senders[s]) + Excess(t.senders[s])
      && Sum(InFlight, t.senders) == Sum(InFlight, st.senders) - InFlight(st.senders[s]) + InFlight(t.senders[s])
      && Total(t.sent) == Total(st.sent) + (if move.FetchAdd? then 1 else 0)
  {
    SentAfterMove(st, s, move);
    SenderSums(st, s, MoveSender(st, s, move).senders[s]);
  }

  lemma MoveEvents(st: State, s: nat, move: Move)
    requires s < |st.senders| && s < |st.sent| && CanMove(st.senders[s], move)
    ensures
      var t := MoveSender(st, s, move);
      var alive := !st.receiver.Gone?;
      && t.received == st.received && t.receiver == st.receiver && t.leaked == st.leaked
      && Logs(t.queue) == Logs(st.queue) + (if alive && move.Push? then 1 else 0)
      && Reported(t.queue) == Reported(st.queue) + (if alive && move.Announce? then st.senders[s].count else 0)
      && (!alive ==> t.queue == st.queue)
  {
    match move
    case SendOther(event) => CountBack(st.queue, Arriving(event));
    case Announce => CountBack(st.queue, LogLinesDropped(st.senders[s].count));
    case Push => CountBack(st.queue, Log(st.senders[s].line));
    case _ =>
  }

  lemma MovesKeepCounted(st: State, s: nat, move: Move)
    requires Inv(st) && s < |st.senders| && CanMove(st.senders[s], move)
    ensures Counted(MoveSender(st, s, move))
  {
    MoveTotals(st, s, move);
    MoveEvents(st, s, move);
    MoveQueued(st, s, move);
  }

  /** The counter moves with the places and the excess of the call that moves, and with what it pushes. */
  lemma MoveQueued(st: State, s: nat, move: Move)
    requires s < |st.senders| && s < |st.sent| && CanMove(st.senders[s], move)
    ensures
      var t := MoveSender(st, s, move);
      var p, q := st.senders[s], t.senders[s];
      t.queued - st.queued
      == Places(q) - Places(p) + Excess(q) - Excess(p) + (if move.Push? && !st.receiver.Gone? then 1 else 0)
  {
  }

  lemma MovesKeepBounded(st: State, s: nat, move: Move)
    requires Inv(st) && s < |st.senders| && CanMove(st.senders[s], move)
    ensures Bounded(MoveSender(st, s, move))
  {
    MoveTotals(st, s, move);
    MoveEvents(st, s, move);
    PlacesNeedRoom(st, s, move);
  }

  /** A move takes one more place only when the counter left room for it. */
  lemma PlacesNeedRoom(st: State, s: nat, move: Move)
    requires s < |st.senders| && s < |st.sent| && CanMove(st.senders[s], move)
    ensures
      var t := MoveSender(st, s, move);
      var used := Places(t.senders[s]) + (if move.Push? && !st.receiver.Gone? then 1 else 0);
      used <= Places(st.senders[s]) + (if st.queued < MAX_QUEUED_LOG_LINES then 1 else 0)
  {
  }

  /** What one move does to the line, or the drop count, its call carries. */
  lemma MoveCarries(st: State, s: nat, move: Move)
    requires s < |st.senders| && s < |st.sent| && CanMove(st.senders[s], move) && !move.Undo?
    ensures
      var t := MoveSender(st, s, move);
      var p, q := st.senders[s], t.senders[s];
      InFlight(q) + t.dropped + (if move.Push? && !st.receiver.Gone? then 1 else 0)
                              + (if move.Announce? then p.count else 0)
      == InFlight(p) + st.dropped + (if move.FetchAdd? then 1 else 0)
  {
  }

  lemma MovesKeepConserved(st: State, s: nat, move: Move)
    requires Inv(st) && s < |st.senders| && CanMove(st.senders[s], move)
    ensures Conserved(MoveSender(st, s, move))
  {
    if !st.receiver.Gone? {
      assert st.senders[s] in st.senders;
      MoveTotals(st, s, move);
      MoveEvents(st, s, move);
      MoveCarries(st, s, move);
    }
  }

  lemma PopKeepsInv(st: State)
    requires Inv(st) && Enabled(st, Pop)
    ensures Inv(Apply(st, Pop))
  {
    CountFront(st.queue);
    CountBack(st.received, st.queue[0]);
  }

  lemma CloneKeepsInv(st: State)
    requires Inv(st)
    ensures Inv(Apply(st, Clone))
  {
    var t := Apply(st, Clone);
    assert t.senders[..|st.senders|] == st.senders && t.sent[..|st.sent|] == st.sent;
  }

  lemma InvKept(st: State, step: Step)
    requires Inv(st) && Enabled(st, step)
    ensures Inv(Apply(st, step))
  {
    match step
    case Clone => CloneKeepsInv(st);
    case Pop => PopKeepsInv(st);
    case By(s, move) =>
      MovesKeepCounted(st, s, move);
      MovesKeepBounded(st, s, move);
      MovesKeepConserved(st, s, move);
    case _ =>
  }

  lemma {:induction false} InvOverRuns(steps: seq<Step>)
    ensures Inv(Exec(steps))
    decreases |steps|
  {
    if steps == [] {
      assert Sum(Places, [Resting]) == Sum(Places, []) + Places(Resting);
      assert Sum(Excess, [Resting]) == Sum(Excess, []) + Excess(Resting);
      assert Sum(InFlight, [Resting]) == Sum(InFlight, []) + InFlight(Resting);
      assert Total([0]) == Total([]) + 0;
    } else {
      var before := Exec(steps[..|steps| - 1]);
      InvOverRuns(steps[..|steps| - 1]);
      if Enabled(before, steps[|steps| - 1]) {
        InvKept(before, steps[|steps| - 1]);
      }
    }
  }

  // ── What holds in every interleaving ──────────────────────────────────────

  /**
   The bound on the heap: whatever the interleaving, never more than 1024 lines
   are in the channel, even counting those still being pushed and the one being
   handed out.
   */
  lemma TheQueueIsBounded(steps: seq<Step>)
    ensures
      var st := Exec(steps);
      Logs(st.queue) + Sum(Places, st.senders) + (if st.receiver.Releasing? then 1 else 0) <= 1024
  {
    InvOverRuns(steps);
  }

  /**
   And no line is turned away while there is room: one that counts itself in
   with fewer than 1024 before it is admitted, whoever they are, and any other
   is one too many.  Fewer than 512 before it mean that the flood is over.
   */
  lemma ThereIsRoomFor1024(steps: seq<Step>, s: nat)
    requires Enabled(Exec(steps), By(s, FetchAdd))
    ensures
      var st := Exec(steps);
      var before := Logs(st.queue) + Sum(Places, st.senders) + Sum(Excess, st.senders) + st.leaked
                    + (if st.receiver.Releasing? then 1 else 0);
      var line := Line(s, st.sent[s]);
      && before == st.queued
      && Apply(st, By(s, FetchAdd)).senders[s] == if before < 1024 then Admitted(line, before) else Over(line)
  {
    InvOverRuns(steps);
  }

  /** What becomes of a line once it is admitted, or of one that was dropped. */
  lemma FloodsEndBelow512(st: State, s: nat)
    requires s < |st.senders| && s < |st.sent|
    ensures CanMove(st.senders[s], LookAtDrops) ==>
              var p := st.senders[s];
              Apply(st, By(s, LookAtDrops)).senders[s] ==
                if p.queuedBefore < 512 && st.dropped > 0 then Reporting(ThenPush(p.line)) else Pushing(p.line)
    ensures CanMove(st.senders[s], CountDrop) ==>
              Apply(st, By(s, CountDrop)).senders[s] ==
                if (st.dropped + 1) % 1024 == 0 then Reporting(ThenReturn) else Resting
  {
  }

  predicate Subtracts(step: Step) {
    step.Release? || (step.By? && (step.move.BackOut? || step.move.Undo?))
  }

  /**
   The counter never underflows: it is never negative, and every step that
   subtracts from it finds at least one to subtract.  It overshoots the
   allowance by no more than the senders about to back out.
   */
  lemma TheCounterNeverUnderflows(steps: seq<Step>, step: Step)
    ensures
      var st := Exec(steps);
      && 0 <= st.queued <= 1024 + Sum(Excess, st.senders)
      && (Enabled(st, step) && Subtracts(step) ==> st.queued >= 1)
  {
    InvOverRuns(steps);
    var st := Exec(steps);
    if Enabled(st, step) && step.By? && Subtracts(step) {
      SenderSums(st, step.s, Resting);
    }
  }

  /**
   Conservation: while the receiver lives, every line sent is in the channel,
   delivered, reported as dropped, waiting to be reported, or in some sender's
   hand.
   */
  lemma EveryLineIsAccountedFor(steps: seq<Step>)
    requires !Exec(steps).receiver.Gone?
    ensures
      var st := Exec(steps);
      Total(st.sent) == Logs(st.queue) + Logs(st.received) + Reported(st.queue) + Reported(st.received)
                        + st.dropped + Sum(InFlight, st.senders)
  {
    InvOverRuns(steps);
  }

  lemma {:induction false} AllResting(w: Weight, senders: seq<Sender>)
    requires w(Resting) == 0 && forall p <- senders :: p.Resting?
    ensures Sum(w, senders) == 0
  {
    if senders != [] {
      assert senders[|senders| - 1] in senders;
      assert forall p <- senders[..|senders| - 1] :: p in senders;
      AllResting(w, senders[..|senders| - 1]);
    }
  }

  /**
   Once all calls have returned and the channel is drained, the counter is back
   at zero, so the whole allowance is free again, and delivered plus dropped is
   exactly what was sent.
   */
  lemma TheAllowanceComesBack(steps: seq<Step>)
    requires
      var st := Exec(steps);
      st.receiver.Waiting? && st.queue == [] && forall p <- st.senders :: p.Resting?
    ensures
      var st := Exec(steps);
      && st.queued == 0
      && Total(st.sent) == Logs(st.received) + Reported(st.received) + st.dropped
  {
    InvOverRuns(steps);
    var st := Exec(steps);
    AllResting(Places, st.senders);
    AllResting(Excess, st.senders);
    AllResting(InFlight, st.senders);
  }

  // ── Order ─────────────────────────────────────────────────────────────────

  /** Everything that ever entered the channel, in order. */
  function History(st: State): seq<Event> {
    st.received + st.queue
  }

  predicate Busy(p: Sender) {
    Places(p) + Excess(p) > 0
  }

  /** The line a call has counted and not yet pushed, given back or lost. */
  function InHand(p: Sender): Line
    requires Busy(p)
  {
    if p.Reporting? || p.Announcing? then p.next.line else p.line
  }

  /** An event that is a line was numbered by its sender, before the one in that sender's hand. */
  predicate NumberedEvent(st: State, e: Event)
    requires |st.sent| == |st.senders|
  {
    e.Log? ==>
      && e.line.sender < |st.sent|
      && e.line.number + (if Busy(st.senders[e.line.sender]) then 1 else 0) < st.sent[e.line.sender]
  }

  predicate NumberedSender(st: State, s: nat)
    requires |st.sent| == |st.senders| && s < |st.sent|
  {
    Busy(st.senders[s]) ==> st.sent[s] > 0 && InHand(st.senders[s]) == Line(s, st.sent[s] - 1)
  }

  /** Every line that entered the channel was numbered by its sender before. */
  ghost predicate Numbered(st: State) {
    var h := History(st);
    && |st.sent| == |st.senders|
    && (forall i :: 0 <= i < |h| ==> NumberedEvent(st, h[i]))
    && (forall s :: 0 <= s < |st.senders| ==> NumberedSender(st, s))
  }

  ghost predicate Ascending(h: seq<Event>) {
    forall i, j :: 0 <= i < j < |h| && h[i].Log? && h[j].Log? && h[i].line.sender == h[j].line.sender ==>
      h[i].line.number < h[j].line.number
  }

  ghost predicate InOrder(st: State) {
    Numbered(st) && Ascending(History(st))
  }

  lemma HistoryGrows(st: State, step: Step)
    requires Enabled(st, step) && !step.Leave?
    ensures
      var h := History(st);
      var k := History(Apply(st, step));
      k == h || (step.By? && |k| == |h| + 1 && k[..|h|] == h
                 && (k[|h|].Log? ==> step.move.Push? && !st.receiver.Gone? && k[|h|].line == st.senders[step.s].line))
  {
    if step.Pop? {
      assert History(Apply(st, step)) == History(st);
    }
  }

  lemma SendersKeepNumbers(st: State, step: Step, s: nat)
    requires |st.sent| == |st.senders| && Enabled(st, step) && !step.Leave?
    requires s < |st.senders| ==> NumberedSender(st, s)
    ensures |Apply(st, step).sent| == |Apply(st, step).senders|
    ensures s < |Apply(st, step).senders| ==> NumberedSender(Apply(st, step), s)
  {
  }

  lemma EventsKeepNumbers(st: State, step: Step, e: Event)
    requires |st.sent| == |st.senders| && Enabled(st, step) && !step.Leave?
    requires NumberedEvent(st, e) && (step.By? ==> NumberedSender(st, step.s))
    ensures |Apply(st, step).sent| == |Apply(st, step).senders|
    ensures NumberedEvent(Apply(st, step), e)
  {
    var t := Apply(st, step);
    if step.By? {
      var s := step.s;
      assert forall i :: 0 <= i < |st.senders| && i != s ==> t.senders[i] == st.senders[i] && t.sent[i] == st.sent[i];
      OnlyNewLinesBusy(st, s, step.move);
    }
  }

  /** A call has no line in hand but one it counted itself in with. */
  lemma OnlyNewLinesBusy(st: State, s: nat, move: Move)
    requires |st.sent| == |st.senders| && s < |st.senders| && CanMove(st.senders[s], move)
    ensures
      var t := MoveSender(st, s, move);
      && |t.senders| == |t.sent| == |st.sent|
      && (if move.FetchAdd? then t.sent[s] == st.sent[s] + 1 && !Busy(st.senders[s])
          else t.sent == st.sent && (Busy(t.senders[s]) ==> Busy(st.senders[s])))
  {
  }

  lemma PushedIsNumbered(st: State, step: Step)
    requires |st.sent| == |st.senders| && Enabled(st, step)
    requires step.By? && step.move.Push? && !st.receiver.Gone? && NumberedSender(st, step.s)
    ensures |Apply(st, step).sent| == |Apply(st, step).senders|
    ensures NumberedEvent(Apply(st, step), Log(st.senders[step.s].line))
  {
  }

  lemma NumberedKept(st: State, step: Step)
    requires Numbered(st) && Enabled(st, step) && !step.Leave?
    ensures Numbered(Apply(st, step))
  {
    var t := Apply(st, step);
    var h, k := History(st), History(t);
    HistoryGrows(st, step);
    forall s: nat | s < |t.senders| ensures |t.sent| == |t.senders| && NumberedSender(t, s) {
      SendersKeepNumbers(st, step, s);
    }
    SendersKeepNumbers(st, step, |t.senders|);
    forall i | 0 <= i < |k| ensures NumberedEvent(t, k[i]) {
      if i < |h| {
        assert k[i] == k[..|h|][i] == h[i];
        EventsKeepNumbers(st, step, h[i]);
      } else if k[i].Log? {
        PushedIsNumbered(st, step);
      }
    }
  }

  lemma AscendingKept(st: State, step: Step)
    requires InOrder(st) && Enabled(st, step) && !step.Leave?
    ensures Ascending(History(Apply(st, step)))
  {
    HistoryGrows(st, step);
    var h, k := History(st), History(Apply(st, step));
    assert forall i :: 0 <= i < |h| ==> k[i] == k[..|h|][i] && NumberedEvent(st, h[i]);
    assert step.By? ==> NumberedSender(st, step.s);
  }

  /** When the receiver leaves, what it has taken out is all that ever came through. */
  lemma LeavingKeepsOrder(st: State)
    requires InOrder(st) && Enabled(st, Leave)
    ensures InOrder(Apply(st, Leave))
  {
    var h, t := History(st), Apply(st, Leave);
    assert History(t) == st.received;
    forall i | 0 <= i < |st.received| ensures st.received[i] == h[i] && NumberedEvent(t, st.received[i]) {
      assert NumberedEvent(st, h[i]);
    }
    forall s: nat | s < |st.senders| ensures NumberedSender(t, s) {
      assert NumberedSender(st, s);
    }
  }

  lemma InOrderKept(st: State, step: Step)
    requires InOrder(st) && Enabled(st, step)
    ensures InOrder(Apply(st, step))
  {
    if step.Leave? {
      LeavingKeepsOrder(st);
    } else {
      NumberedKept(st, step);
      AscendingKept(st, step);
    }
  }

  lemma {:induction false} InOrderOverRuns(steps: seq<Step>)
    ensures InOrder(Exec(steps))
    decreases |steps|
  {
    if steps != [] {
      var before := Exec(steps[..|steps| - 1]);
      InOrderOverRuns(steps[..|steps| - 1]);
      if Enabled(before, steps[|steps| - 1]) {
        InOrderKept(before, steps[|steps| - 1]);
      }
    }
  }

  /**
   The newest line is the one that is lost: the lines of one sender enter the
   channel in the order they were sent, and none enters twice.
   */
  lemma LinesStayInOrder(steps: seq<Step>)
    ensures
      var st := Exec(steps);
      History(st) == st.received + st.queue && Ascending(History(st))
  {
    InOrderOverRuns(steps);
  }
}
