/**
 The one-daemon-per-project lock: an advisory `flock` on a pidfile that is
 opened or created, locked without waiting, compared with what now lives at the
 path, and unlinked by its owner before the lock is given up.

 Every system call is one step, any number of processes take part, a process
 may die between any two of its steps, and the number of an inode may be used
 again once nobody holds the old file open.
 */
module ProjectLock {
  import opened Prelude

  type Pid = nat
  type Inode = nat

  /** How many rounds `acquire` makes before it gives up. */
  const ATTEMPTS: nat := 8

  /** Why an attempt ended without the lock, other than another owner. */
  datatype Failure = CouldNotOpen | CouldNotLock | CouldNotWrite | KeptBeingReplaced

  /** Where one process stands; `ino` is the file it has open. */
  datatype Phase =
    | Opening(round: nat)
    | Opened(round: nat, ino: Inode)
    | Locked(round: nat, ino: Inode)
    | Rejected(round: nat, ino: Inode)   // the file at the path is another one
    | Verified(round: nat, ino: Inode)   // the file at the path is this one
    | Truncated(round: nat, ino: Inode)  // the old pid is gone
    | Holding(ino: Inode)                // `acquire` returned the lock
    | Unlinked(ino: Inode)               // `drop` removed the path, still locked
    | Held                               // `acquire` returned: another owner
    | Failed(why: Failure)
    | Ended

  /**
   One process: its phase, and for the retry accounting how many unlinks had
   happened when it began and how often reading the path's metadata failed.
   */
  datatype Proc = Proc(phase: Phase, since: nat, excuses: nat)

  datatype Sys = Sys(
    path: Option<Inode>,                 // what the pidfile's name refers to
    owner: map<Inode, Pid>,              // the kernel's lock table
    procs: map<Pid, Proc>,
    contents: map<Inode, Option<Pid>>,   // the pid each file records, if any
    unlinks: seq<Pid>)                   // who removed the pidfile, in order

  datatype Action =
    | Start(p: Pid)
    | Open(p: Pid, file: Inode)
    | OpenFails(p: Pid)
    | TryLock(p: Pid)
    | LockFails(p: Pid)
    | Check(p: Pid)
    | StatFails(p: Pid)
    | CloseRejected(p: Pid)
    | Truncate(p: Pid)
    | WritePid(p: Pid)
    | WriteFails(p: Pid)
    | Unlink(p: Pid)
    | UnlinkFails(p: Pid)
    | Release(p: Pid)
    | Kill(p: Pid)

  /** Nothing exists and nobody runs. */
  const Init := Sys(None, map[], map[], map[], [])

  predicate IsOpen(ph: Phase) {
    ph.Opened? || HasLock(ph)
  }

  predicate HasLock(ph: Phase) {
    ph.Locked? || ph.Rejected? || Claims(ph) || ph.Unlinked?
  }

  /** Past the inode check and not yet past the unlink: this process is, or is about to be, the daemon. */
  predicate Claims(ph: Phase) {
    ph.Verified? || ph.Truncated? || ph.Holding?
  }

  /** Not inside `acquire` and not holding anything. */
  predicate Finished(ph: Phase) {
    ph.Held? || ph.Failed? || ph.Ended?
  }

  predicate Idle(s: Sys, p: Pid) {
    p !in s.procs || Finished(s.procs[p].phase)
  }

  /** The file system may give number `i` to a new file. */
  predicate FreeInode(s: Sys, i: Inode) {
    s.path != Some(i)
    && forall p <- s.procs :: IsOpen(s.procs[p].phase) ==> s.procs[p].phase.ino != i
  }

  predicate Enabled(s: Sys, a: Action) {
    if a.Start? then Idle(s, a.p)
    else
      a.p in s.procs &&
      var ph := s.procs[a.p].phase;
      match a
      case Open(_, i) => ph.Opening? && (if s.path.None? then FreeInode(s, i) else s.path == Some(i))
      case OpenFails(_) => ph.Opening?
      case TryLock(_) => ph.Opened?
      case LockFails(_) => ph.Opened?
      case Check(_) => ph.Locked?
      case StatFails(_) => ph.Locked?
      case CloseRejected(_) => ph.Rejected?
      case Truncate(_) => ph.Verified?
      case WritePid(_) => ph.Truncated?
      case WriteFails(_) => ph.Verified? || ph.Truncated?
      case Unlink(_) => ph.Holding?
      case UnlinkFails(_) => ph.Holding?
      case Release(_) => ph.Unlinked?
      case Kill(_) => true
      case Start(_) => false
  }

  /** Move `p` to phase `ph`. */
  function Move(s: Sys, p: Pid, ph: Phase): Sys
    requires p in s.procs
  {
    s.(procs := s.procs[p := s.procs[p].(phase := ph)])
  }

  /** Close `p`'s file, which gives up its lock if it has one, and move on to `ph`. */
  function Close(s: Sys, p: Pid, ph: Phase): Sys
    requires p in s.procs
  {
    var was := s.procs[p].phase;
    Move(if HasLock(was) then s.(owner := s.owner - {was.ino}) else s, p, ph)
  }

  function Apply(s: Sys, a: Action): Sys
    requires Enabled(s, a)
  {
    if a.Start? then s.(procs := s.procs[a.p := Proc(Opening(0), |s.unlinks|, 0)])
    else
      var p := a.p;
      var ph := s.procs[p].phase;
      match a
      case Open(_, i) =>
        var created := if s.path.None?
          then s.(path := Some(i), contents := s.contents[i := None]) else s;
        Move(created, p, Opened(ph.round, i))
      case OpenFails(_) => Move(s, p, Failed(CouldNotOpen))
      case TryLock(_) =>
        if ph.ino in s.owner then Close(s, p, Held)
        else Move(s.(owner := s.owner[ph.ino := p]), p, Locked(ph.round, ph.ino))
      case LockFails(_) => Close(s, p, Failed(CouldNotLock))
      case Check(_) =>
        Move(s, p, if s.path == Some(ph.ino) then Verified(ph.round, ph.ino) else Rejected(ph.round, ph.ino))
      case StatFails(_) =>
        var t := Move(s, p, Rejected(ph.round, ph.ino));
        t.(procs := t.procs[p := t.procs[p].(excuses := t.procs[p].excuses + 1)])
      case CloseRejected(_) =>
        Close(s, p, if ph.round + 1 < ATTEMPTS then Opening(ph.round + 1) else Failed(KeptBeingReplaced))
      case Truncate(_) => Move(s.(contents := s.contents[ph.ino := None]), p, Truncated(ph.round, ph.ino))
      case WritePid(_) => Move(s.(contents := s.contents[ph.ino := Some(p)]), p, Holding(ph.ino))
      case WriteFails(_) => Close(s, p, Failed(CouldNotWrite))
      case Unlink(_) => Move(s.(path := None, unlinks := s.unlinks + [p]), p, Unlinked(ph.ino))
      case UnlinkFails(_) => Move(s, p, Unlinked(ph.ino))
      case Release(_) => Close(s, p, Ended)
      case Kill(_) => Close(s, p, Ended)
  }

  /** Run any schedule; an action its process cannot take is passed over. */
  function Exec(s: Sys, acts: seq<Action>): Sys
    decreases |acts|
  {
    if acts == [] then s
    else
      var before := Exec(s, acts[..|acts| - 1]);
      var a := acts[|acts| - 1];
      if Enabled(before, a) then Apply(before, a) else before
  }

  // ── The invariant ─────────────────────────────────────────────────────────

  /** The lock table and the processes agree. */
  ghost predicate LocksAgree(s: Sys) {
    && (forall i <- s.owner :: s.owner[i] in s.procs && HasLock(s.procs[s.owner[i]].phase)
                               && s.procs[s.owner[i]].phase.ino == i)
    && (forall p <- s.procs :: HasLock(s.procs[p].phase) ==>
          s.procs[p].phase.ino in s.owner && s.owner[s.procs[p].phase.ino] == p)
  }

  /** Whoever passed the check and has not unlinked yet has the file at the path. */
  ghost predicate ClaimsAreCurrent(s: Sys) {
    forall p <- s.procs :: Claims(s.procs[p].phase) ==> s.path == Some(s.procs[p].phase.ino)
  }

  /** A daemon's pidfile records that daemon. */
  ghost predicate PidsAreRecorded(s: Sys) {
    forall p <- s.procs :: s.procs[p].phase.Holding? ==>
      s.procs[p].phase.ino in s.contents && s.contents[s.procs[p].phase.ino] == Some(p)
  }

  /** The unlinks (and unreadable paths) the rounds made so far must have met. */
  function Owed(s: Sys, ph: Phase): nat {
    match ph
    case Opening(r) => r
    case Opened(r, i) => if s.path == Some(i) then r else r + 1
    case Locked(r, i) => if s.path == Some(i) then r else r + 1
    case Rejected(r, _) => r + 1
    case Verified(r, _) => r
    case Truncated(r, _) => r
    case Failed(KeptBeingReplaced) => ATTEMPTS
    case _ => 0
  }

  /** `p` has met the events its rounds call for, and caused none of them. */
  ghost predicate Paid(s: Sys, p: Pid)
    requires p in s.procs
  {
    var me := s.procs[p];
    && me.since <= |s.unlinks|
    && (!Settled(me.phase) ==>
          && Owed(s, me.phase) <= |s.unlinks| - me.since + me.excuses
          && p !in s.unlinks[me.since..])
  }

  ghost predicate RoundsArePaid(s: Sys) {
    forall p <- s.procs :: Paid(s, p)
  }

  ghost predicate Inv(s: Sys) {
    LocksAgree(s) && ClaimsAreCurrent(s) && PidsAreRecorded(s) && RoundsArePaid(s)
  }

  /** Closing a file gives up exactly the lock that came with it. */
  lemma ClosingKeepsLocks(s: Sys, p: Pid, ph: Phase)
    requires LocksAgree(s) && p in s.procs && !HasLock(ph)
    ensures LocksAgree(Close(s, p, ph))
  {
  }

  /** So does moving on with the same file and the same lock, or without any. */
  lemma MovingKeepsLocks(s: Sys, p: Pid, ph: Phase)
    requires LocksAgree(s) && p in s.procs
    requires HasLock(ph) <==> HasLock(s.procs[p].phase)
    requires HasLock(ph) ==> ph.ino == s.procs[p].phase.ino
    ensures LocksAgree(Move(s, p, ph))
  {
  }

  lemma LockingKeepsLocks(s: Sys, p: Pid)
    requires LocksAgree(s) && p in s.procs && s.procs[p].phase.Opened?
    requires s.procs[p].phase.ino !in s.owner
    ensures LocksAgree(Apply(s, TryLock(p)))
  {
  }

  lemma LocksAgreeKept(s: Sys, a: Action)
    requires LocksAgree(s) && Enabled(s, a)
    ensures LocksAgree(Apply(s, a))
  {
    if a.TryLock? && s.procs[a.p].phase.ino !in s.owner {
      LockingKeepsLocks(s, a.p);
    } else if !a.Start? {
      var ph := Apply(s, a).procs[a.p].phase;
      if HasLock(ph) || a.Open? || a.OpenFails? {
        MovingKeepsLocks(s, a.p, ph);
      } else {
        ClosingKeepsLocks(s, a.p, ph);
      }
    }
  }

  /** The step that could hurt: an unlink, while somebody else is past the check. */
  lemma ClaimsAreCurrentKept(s: Sys, a: Action)
    requires Inv(s) && Enabled(s, a)
    ensures ClaimsAreCurrent(Apply(s, a))
  {
    if a.Unlink? {
      forall q | q in s.procs && Claims(s.procs[q].phase) ensures q == a.p {
        OneClaim(s, q, a.p);
      }
    }
  }

  /** Nobody writes to another daemon's pidfile. */
  lemma ContentsOfOthersStay(s: Sys, a: Action, q: Pid)
    requires Inv(s) && Enabled(s, a) && q in s.procs && s.procs[q].phase.Holding? && q != a.p
    ensures
      var i, t := s.procs[q].phase.ino, Apply(s, a);
      q in t.procs && t.procs[q] == s.procs[q] && i in t.contents && t.contents[i] == s.contents[i]
  {
    var i := s.procs[q].phase.ino;
    assert HasLock(s.procs[q].phase) && s.owner[i] == q && s.path == Some(i);
  }

  lemma PidsAreRecordedKept(s: Sys, a: Action)
    requires Inv(s) && Enabled(s, a)
    ensures PidsAreRecorded(Apply(s, a))
  {
    var t := Apply(s, a);
    forall q | q in t.procs && t.procs[q].phase.Holding?
      ensures t.procs[q].phase.ino in t.contents && t.contents[t.procs[q].phase.ino] == Some(q)
    {
      OnlyActorsAppear(s, a);
      if q != a.p {
        OthersDoNotMoveMe(s, a, q);
        ContentsOfOthersStay(s, a, q);
      }
    }
  }

  /** Past `acquire`: nothing more is asked of its rounds. */
  predicate Settled(ph: Phase) {
    ph.Holding? || ph.Unlinked? || ph.Ended?
  }

  /** A process's own step owes no more than before, but for a failure to look at the path, which is its own excuse. */
  lemma MyStepOwesNoMore(s: Sys, a: Action)
    requires Enabled(s, a) && !a.Start? && !a.Unlink?
    ensures
      var t, me := Apply(s, a), s.procs[a.p];
      && a.p in t.procs && t.unlinks == s.unlinks && t.procs[a.p].since == me.since
      && Owed(t, t.procs[a.p].phase) - t.procs[a.p].excuses <= Owed(s, me.phase) - me.excuses
      && (Settled(me.phase) ==> Settled(t.procs[a.p].phase))
  {
  }

  lemma MyRoundsArePaid(s: Sys, a: Action)
    requires Inv(s) && Enabled(s, a)
    ensures a.p in Apply(s, a).procs && Paid(Apply(s, a), a.p)
  {
    if a.Start? {
      assert s.unlinks[|s.unlinks|..] == [];
    } else {
      assert Paid(s, a.p);
      if !a.Unlink? {
        MyStepOwesNoMore(s, a);
      }
    }
  }

  /** An unlink may cost another process one more round, and pays for it. */
  lemma TheirRoundsArePaid(s: Sys, a: Action, p: Pid)
    requires Inv(s) && Enabled(s, a) && p in s.procs && p != a.p
    ensures p in Apply(s, a).procs && Paid(Apply(s, a), p)
  {
    var t := Apply(s, a);
    assert Paid(s, p);
    assert t.procs[p] == s.procs[p];
    if a.Unlink? {
      assert t.unlinks[t.procs[p].since..] == s.unlinks[s.procs[p].since..] + [a.p];
    }
  }

  lemma RoundsArePaidKept(s: Sys, a: Action)
    requires Inv(s) && Enabled(s, a)
    ensures RoundsArePaid(Apply(s, a))
  {
    MyRoundsArePaid(s, a);
    forall p | p in s.procs && p != a.p ensures p in Apply(s, a).procs && Paid(Apply(s, a), p) {
      TheirRoundsArePaid(s, a, p);
    }
    OnlyActorsAppear(s, a);
  }

  lemma OnlyActorsAppear(s: Sys, a: Action)
    requires Enabled(s, a)
    ensures Apply(s, a).procs.Keys == s.procs.Keys + {a.p}
  {
  }

  lemma InvKept(s: Sys, a: Action)
    requires Inv(s) && Enabled(s, a)
    ensures Inv(Apply(s, a))
  {
    LocksAgreeKept(s, a);
    ClaimsAreCurrentKept(s, a);
    PidsAreRecordedKept(s, a);
    RoundsArePaidKept(s, a);
  }

  lemma {:induction false} InvOverRuns(s: Sys, acts: seq<Action>)
    requires Inv(s)
    ensures Inv(Exec(s, acts))
    decreases |acts|
  {
    if acts != [] {
      var before := Exec(s, acts[..|acts| - 1]);
      InvOverRuns(s, acts[..|acts| - 1]);
      if Enabled(before, acts[|acts| - 1]) {
        InvKept(before, acts[|acts| - 1]);
      }
    }
  }

  lemma OneClaim(s: Sys, p: Pid, q: Pid)
    requires LocksAgree(s) && ClaimsAreCurrent(s)
    requires p in s.procs && Claims(s.procs[p].phase)
    requires q in s.procs && Claims(s.procs[q].phase)
    ensures p == q
  {
  }

  /** `p` is past the check, alone in that, and everything visible says so. */
  ghost predicate IsTheDaemon(s: Sys, p: Pid) {
    p in s.procs && Claims(s.procs[p].phase) &&
    var i := s.procs[p].phase.ino;
    && (forall q <- s.procs :: Claims(s.procs[q].phase) ==> q == p)
    && s.path == Some(i)
    && i in s.owner && s.owner[i] == p
    && (s.procs[p].phase.Holding? ==> i in s.contents && s.contents[i] == Some(p))
  }

  lemma ClaimantIsTheDaemon(s: Sys, p: Pid)
    requires Inv(s) && p in s.procs && Claims(s.procs[p].phase)
    ensures IsTheDaemon(s, p)
  {
  }

  /** The kernel lists `p` as the owner of no file. */
  ghost predicate OwnsNothing(s: Sys, p: Pid) {
    forall i <- s.owner :: s.owner[i] != p
  }

  /** A process that is done owns no lock, and gave up only after enough removals by others. */
  lemma FinishedOwnsNothing(acts: seq<Action>, p: Pid)
    requires p in Exec(Init, acts).procs && Finished(Exec(Init, acts).procs[p].phase)
    ensures
      var s := Exec(Init, acts);
      && OwnsNothing(s, p)
      && s.procs[p].since <= |s.unlinks|
      && (s.procs[p].phase == Failed(KeptBeingReplaced) ==>
            8 <= |s.unlinks| - s.procs[p].since + s.procs[p].excuses)
  {
    InvOverRuns(Init, acts);
    assert Paid(Exec(Init, acts), p);
  }

  // ── What holds in every interleaving ──────────────────────────────────────

  /**
   Mutual exclusion, with everything the pidfile promises: in every reachable
   state at most one process is past the check and not past its unlink, the
   file it locked is the one at the path, the kernel lists it as the owner of
   that file, and once `acquire` has returned the file records its pid.
   */
  lemma AtMostOneDaemon(acts: seq<Action>, p: Pid)
    requires p in Exec(Init, acts).procs && Claims(Exec(Init, acts).procs[p].phase)
    ensures IsTheDaemon(Exec(Init, acts), p)
  {
    InvOverRuns(Init, acts);
    ClaimantIsTheDaemon(Exec(Init, acts), p);
  }

  /**
   Bounded work: a process that gave up because the pidfile kept being replaced
   met, since it began, as many unlinks by other owners (or failures to read
   the path's metadata) as it made rounds, and none of those unlinks was its own.
   */
  lemma EveryRetryIsPaidFor(acts: seq<Action>, p: Pid)
    requires p in Exec(Init, acts).procs
    requires Exec(Init, acts).procs[p].phase == Failed(KeptBeingReplaced)
    ensures
      var s := Exec(Init, acts);
      && s.procs[p].since <= |s.unlinks|
      && 8 <= |s.unlinks| - s.procs[p].since + s.procs[p].excuses
      && p !in s.unlinks[s.procs[p].since..]
  {
    InvOverRuns(Init, acts);
    assert Paid(Exec(Init, acts), p);
  }

  /** A process in round `r` has met at least `r` such events already. */
  lemma RoundsNeedUnlinks(acts: seq<Action>, p: Pid)
    requires p in Exec(Init, acts).procs && Exec(Init, acts).procs[p].phase.Opening?
    ensures
      var s := Exec(Init, acts);
      && s.procs[p].since <= |s.unlinks|
      && s.procs[p].phase.round <= |s.unlinks| - s.procs[p].since + s.procs[p].excuses
      && p !in s.unlinks[s.procs[p].since..]
  {
    InvOverRuns(Init, acts);
    assert Paid(Exec(Init, acts), p);
  }

  /** However a daemon dies, its lock dies with it, and the path is left as it was. */
  lemma DeathReleasesTheLock(s: Sys, p: Pid)
    requires Inv(s) && p in s.procs
    ensures
      var t := Apply(s, Kill(p));
      && Inv(t) && t.path == s.path
      && OwnsNothing(t, p)
      && (forall i <- s.owner :: s.owner[i] != p ==> i in t.owner && t.owner[i] == s.owner[i])
  {
    InvKept(s, Kill(p));
  }

  lemma OthersDoNotMoveMe(s: Sys, a: Action, me: Pid)
    requires Enabled(s, a) && a.p != me
    ensures me in s.procs <==> me in Apply(s, a).procs
    ensures me in s.procs ==> Apply(s, a).procs[me] == s.procs[me]
  {
  }

  lemma ExecExtends(s: Sys, trace: seq<Action>, a: Action)
    ensures Exec(s, trace + [a]) ==
      (var before := Exec(s, trace); if Enabled(before, a) then Apply(before, a) else before)
  {
  }

  /** There is always a number for a new file. */
  lemma {:induction false} SomeInodeIsFree(s: Sys) returns (i: Inode)
    ensures FreeInode(s, i)
  {
    i := if s.path.Some? then s.path.value + 1 else 0;
    var todo := s.procs.Keys;
    while todo != {}
      invariant todo <= s.procs.Keys
      invariant s.path.Some? ==> s.path.value < i
      invariant forall p :: p in s.procs && p !in todo && IsOpen(s.procs[p].phase) ==> s.procs[p].phase.ino < i
      decreases todo
    {
      var p :| p in todo;
      if IsOpen(s.procs[p].phase) && i <= s.procs[p].phase.ino {
        i := s.procs[p].phase.ino + 1;
      }
      todo := todo - {p};
    }
  }

  // ── The code of `acquire` and `drop`, among the others ────────────────────

  /** What `acquire` can answer instead of the lock. */
  datatype LockError = AnotherHoldsIt | Unavailable(why: Failure)

  /** What happens around one system call: what others do before it, and whether it fails. */
  datatype Moment = Moment(others: seq<Action>, fails: bool)

  /** Whether the next system call fails. */
  predicate NextFails(world: seq<Moment>) {
    world != [] && world[0].fails
  }

  function Later(world: seq<Moment>): seq<Moment> {
    if world == [] then [] else world[1..]
  }

  /** No system call fails. */
  predicate Smooth(world: seq<Moment>) {
    forall m <- world :: !m.fails
  }

  lemma SmoothGoesOn(world: seq<Moment>)
    ensures Smooth(world) ==> !NextFails(world) && Smooth(Later(world))
  {
  }

  /** The first thing `me` did since the schedule was `before` is the action at `k`. */
  ghost predicate FirstSince(before: seq<Action>, trace: seq<Action>, me: Pid, k: nat) {
    |before| <= k < |trace| && trace[k].p == me && forall j :: |before| <= j < k ==> trace[j].p != me
  }

  /** What an unlink and a release of `me` look like in the schedule, whatever others do around them. */
  ghost predicate DropsIn(before: seq<Action>, trace: seq<Action>, me: Pid, fails: bool, k: nat) {
    && FirstSince(before, trace, me, k) && k + 1 < |trace|
    && trace[k] == (if fails then UnlinkFails(me) else Unlink(me))
    && (!fails ==> Exec(Init, trace[..k + 1]).path.None?)
    && (forall j :: k < j < |trace| - 1 ==> trace[j].p != me)
    && trace[|trace| - 1] == Release(me)
  }

  /** The look at the path, and what it saw when it was taken. */
  ghost predicate LooksIn(before: seq<Action>, trace: seq<Action>, me: Pid, fails: bool, ino: Inode, yes: bool, k: nat) {
    && FirstSince(before, trace, me, k)
    && trace[k] == (if fails then StatFails(me) else Check(me))
    && (yes <==> !fails && Exec(Init, trace[..k]).path == Some(ino))
  }

  lemma LookedBefore(before: seq<Action>, trace: seq<Action>, longer: seq<Action>, me: Pid, fails: bool, ino: Inode,
                     yes: bool)
    requires trace <= longer && exists k: nat :: LooksIn(before, trace, me, fails, ino, yes, k)
    ensures exists k: nat :: LooksIn(before, longer, me, fails, ino, yes, k)
  {
    var k: nat :| LooksIn(before, trace, me, fails, ino, yes, k);
    assert longer[..k] == trace[..k];
    assert LooksIn(before, longer, me, fails, ino, yes, k);
  }

  /** The machine, as one process sees it. */
  class Machine {
    var sys: Sys
    var world: seq<Moment>
    ghost var trace: seq<Action>

    constructor (world: seq<Moment>)
      ensures Valid() && sys == Init && this.world == world
    {
      sys := Init;
      this.world := world;
      trace := [];
    }

    /** The state is what the recorded schedule leads to. */
    ghost predicate Valid()
      reads this
    {
      sys == Exec(Init, trace)
    }

    method Do(a: Action)
      requires Valid() && Enabled(sys, a)
      modifies this`sys, this`trace
      ensures Valid() && sys == Apply(old(sys), a) && trace == old(trace) + [a]
    {
      ExecExtends(Init, trace, a);
      sys := Apply(sys, a);
      trace := trace + [a];
    }

    /** Let the others run up to the next system call of `me`, and say whether that call fails. */
    method Wait(me: Pid) returns (fails: bool)
      requires Valid()
      modifies this
      ensures Valid() && old(trace) <= trace
      ensures fails == NextFails(old(world)) && world == Later(old(world))
      ensures forall k :: |old(trace)| <= k < |trace| ==> trace[k].p != me
      ensures me in sys.procs <==> me in old(sys).procs
      ensures me in sys.procs ==> sys.procs[me] == old(sys).procs[me]
      ensures |old(sys).unlinks| <= |sys.unlinks|
      ensures old(world) == [] ==> sys == old(sys)
    {
      fails := false;
      if world != [] {
        var moment := world[0];
        world := world[1..];
        fails := moment.fails;
        for k := 0 to |moment.others|
          invariant Valid() && old(trace) <= trace && world == old(world)[1..]
          invariant forall k :: |old(trace)| <= k < |trace| ==> trace[k].p != me
          invariant me in sys.procs <==> me in old(sys).procs
          invariant me in sys.procs ==> sys.procs[me] == old(sys).procs[me]
          invariant |old(sys).unlinks| <= |sys.unlinks|
        {
          var a := moment.others[k];
          if a.p != me && Enabled(sys, a) {
            OthersDoNotMoveMe(sys, a, me);
            Do(a);
          }
        }
      }
    }

    /** Remove the pidfile, then give up the lock. */
    method Drop(me: Pid)
      requires Valid() && me in sys.procs && sys.procs[me].phase.Holding?
      modifies this
      ensures Valid() && old(trace) <= trace
      // In between the others may act, and `me` does nothing but these two things.
      ensures exists k: nat :: DropsIn(old(trace), trace, me, NextFails(old(world)), k)
      ensures me in sys.procs && sys.procs[me].phase == Ended
      ensures OwnsNothing(sys, me)
    {
      var fails := Wait(me);
      ghost var k := |trace|;
      if fails {
        Do(UnlinkFails(me));
      } else {
        Do(Unlink(me));
      }
      ghost var unlinked := trace;
      var _ := Wait(me);
      Do(Release(me));
      assert trace[..k + 1] == unlinked;
      assert DropsIn(old(trace), trace, me, fails, k);
      FinishedOwnsNothing(trace, me);
    }

    /** Open the pidfile, creating it when there is none. */
    method OpenOrCreate(me: Pid) returns (ok: bool)
      requires Valid() && me in sys.procs && sys.procs[me].phase.Opening?
      modifies this
      ensures Valid() && old(trace) <= trace && world == Later(old(world))
      ensures me in sys.procs && sys.procs[me].since == old(sys).procs[me].since
      ensures |old(sys).unlinks| <= |sys.unlinks|
      ensures ok <==> !NextFails(old(world))
      ensures Smooth(old(world)) ==> ok && Smooth(world)
      ensures if ok then sys.procs[me].phase.Opened? && sys.path == Some(sys.procs[me].phase.ino)
                         && sys.procs[me].phase.round == old(sys).procs[me].phase.round
              else sys.procs[me].phase == Failed(CouldNotOpen)
      ensures old(world) == [] ==> OpensAlone(old(sys), sys)
    {
      SmoothGoesOn(world);
      var fails := Wait(me);
      if fails {
        Do(OpenFails(me));
        return false;
      }
      if sys.path.Some? {
        Do(Open(me, sys.path.value));
      } else {
        ghost var someNumber := SomeInodeIsFree(sys);
        var unused: Inode :| FreeInode(sys, unused);
        FreeMeansUnowned(trace, unused);
        Do(Open(me, unused));
      }
      return true;
    }

    /** Lock the open file without waiting. */
    method LockFile(me: Pid) returns (refused: Option<LockError>)
      requires Valid() && me in sys.procs && sys.procs[me].phase.Opened?
      modifies this
      ensures Valid() && old(trace) <= trace && world == Later(old(world))
      ensures me in sys.procs && sys.procs[me].since == old(sys).procs[me].since
      ensures refused == Some(Unavailable(CouldNotLock)) <==> NextFails(old(world))
      ensures Smooth(old(world)) ==> refused != Some(Unavailable(CouldNotLock)) && Smooth(world)
      ensures match refused
              case None => sys.procs[me].phase.Locked? && sys.procs[me].phase.ino == old(sys).procs[me].phase.ino
                           && sys.procs[me].phase.round == old(sys).procs[me].phase.round
              case Some(AnotherHoldsIt) =>
                sys.procs[me].phase == Held && OwnedByAnother(sys, old(sys).procs[me].phase.ino, me)
              case Some(Unavailable(why)) => why == CouldNotLock && sys.procs[me].phase == Failed(why)
      ensures old(world) == [] ==> sys.path == old(sys).path
      ensures old(world) == [] ==> (refused == Some(AnotherHoldsIt) <==> old(sys).procs[me].phase.ino in old(sys).owner)
    {
      SmoothGoesOn(world);
      var fails := Wait(me);
      if fails {
        Do(LockFails(me));
        return Some(Unavailable(CouldNotLock));
      }
      AnotherOwns(trace, me, sys.procs[me].phase.ino);
      Do(TryLock(me));
      return if sys.procs[me].phase.Held? then Some(AnotherHoldsIt) else None;
    }

    /** Compare the locked file with the one at the path. */
    method Look(me: Pid) returns (yes: bool)
      requires Valid() && me in sys.procs && sys.procs[me].phase.Locked?
      modifies this
      ensures Valid() && old(trace) <= trace && world == Later(old(world))
      ensures me in sys.procs && sys.procs[me].since == old(sys).procs[me].since
      ensures exists k: nat ::
                LooksIn(old(trace), trace, me, NextFails(old(world)), old(sys).procs[me].phase.ino, yes, k)
      ensures var ph := old(sys).procs[me].phase;
              sys.procs[me].phase == if yes then Verified(ph.round, ph.ino) else Rejected(ph.round, ph.ino)
      ensures old(world) == [] ==> sys.path == old(sys).path
      ensures old(world) == [] ==> (yes <==> old(sys).path == Some(old(sys).procs[me].phase.ino))
    {
      var fails := Wait(me);
      ghost var seen := trace;
      if fails {
        Do(StatFails(me));
      } else {
        Do(Check(me));
      }
      yes := sys.procs[me].phase.Verified?;
      assert trace[..|seen|] == seen;
      assert LooksIn(old(trace), trace, me, fails, old(sys).procs[me].phase.ino, yes, |seen|);
    }

    /** The check of a round; when it fails the file is closed, lock and all. */
    method StillAt(me: Pid) returns (yes: bool)
      requires Valid() && me in sys.procs && sys.procs[me].phase.Locked?
      modifies this
      ensures Valid() && old(trace) <= trace
      ensures Smooth(old(world)) ==> Smooth(world)
      ensures me in sys.procs && sys.procs[me].since == old(sys).procs[me].since
      // Yes means that the look worked and the path named the locked file at that moment.
      ensures exists k: nat ::
                LooksIn(old(trace), trace, me, NextFails(old(world)), old(sys).procs[me].phase.ino, yes, k)
      ensures var round := old(sys).procs[me].phase.round;
              if yes then sys.procs[me].phase == Verified(round, old(sys).procs[me].phase.ino)
              else sys.procs[me].phase == if round + 1 < 8 then Opening(round + 1) else Failed(KeptBeingReplaced)
      ensures old(world) == [] ==> world == [] && sys.path == old(sys).path
      ensures old(world) == [] ==> (yes <==> old(sys).path == Some(old(sys).procs[me].phase.ino))
    {
      SmoothGoesOn(world);
      SmoothGoesOn(Later(world));
      yes := Look(me);
      if !yes {
        ghost var looked := trace;
        var _ := Wait(me);
        Do(CloseRejected(me));
        LookedBefore(old(trace), looked, trace, me, NextFails(old(world)), old(sys).procs[me].phase.ino, yes);
      }
    }

    /** One of the two calls that change what the file says. */
    method Rewrite(me: Pid) returns (ok: bool)
      requires Valid() && me in sys.procs && (sys.procs[me].phase.Verified? || sys.procs[me].phase.Truncated?)
      modifies this
      ensures Valid() && old(trace) <= trace && world == Later(old(world))
      ensures me in sys.procs && sys.procs[me].since == old(sys).procs[me].since
      ensures ok <==> !NextFails(old(world))
      ensures var ph := old(sys).procs[me].phase;
              sys.procs[me].phase ==
                if !ok then Failed(CouldNotWrite)
                else if ph.Verified? then Truncated(ph.round, ph.ino) else Holding(ph.ino)
    {
      var fails := Wait(me);
      if fails {
        Do(WriteFails(me));
        return false;
      }
      if sys.procs[me].phase.Verified? {
        Do(Truncate(me));
      } else {
        Do(WritePid(me));
      }
      return true;
    }

    /** Replace what the file says by our pid. */
    method RecordPid(me: Pid) returns (ok: bool)
      requires Valid() && me in sys.procs && sys.procs[me].phase.Verified?
      modifies this
      ensures Valid() && old(trace) <= trace
      ensures me in sys.procs && sys.procs[me].since == old(sys).procs[me].since
      ensures ok <==> !NextFails(old(world)) && !NextFails(Later(old(world)))
      ensures Smooth(old(world)) ==> ok
      ensures sys.procs[me].phase == if ok then Holding(old(sys).procs[me].phase.ino) else Failed(CouldNotWrite)
    {
      SmoothGoesOn(world);
      SmoothGoesOn(Later(world));
      ok := Rewrite(me);
      if ok {
        ok := Rewrite(me);
      }
    }

    /** One round of the retry loop. */
    method Round(me: Pid) returns (end: Option<Result<Inode, LockError>>)
      requires Valid() && me in sys.procs && sys.procs[me].phase.Opening?
      modifies this
      ensures Valid() && old(trace) <= trace
      ensures me in sys.procs && sys.procs[me].since == old(sys).procs[me].since
      ensures var round := old(sys).procs[me].phase.round;
              sys.procs[me].phase ==
                match end
                case None => if round + 1 < 8 then Opening(round + 1) else Failed(KeptBeingReplaced)
                case Some(Ok(ino)) => Holding(ino)
                case Some(Err(AnotherHoldsIt)) => Held
                case Some(Err(Unavailable(why))) => Failed(why)
      // No call failing, nothing but another owner ends the attempt, and a lost race goes on.
      ensures Smooth(old(world)) && end.None? ==> Smooth(world)
      ensures Smooth(old(world)) && end.Some? ==> end.value.Ok? || end.value == Err(AnotherHoldsIt)
      ensures end == Some(Err(AnotherHoldsIt)) ==> exists i :: OwnedByAnother(sys, i, me)
      ensures old(world) == [] ==> end.Some? && IsTheAnswer(old(sys), end.value)
    {
      var ok := OpenOrCreate(me);
      if !ok {
        return Some(Err(Unavailable(CouldNotOpen)));
      }
      ghost var i := sys.procs[me].phase.ino;
      var refused := LockFile(me);
      if refused.Some? {
        assert refused == Some(AnotherHoldsIt) ==> OwnedByAnother(sys, i, me);
        return Some(Err(refused.value));
      }
      ok := StillAt(me);
      if !ok {
        return None;
      }
      ok := RecordPid(me);
      return Some(if ok then Ok(sys.procs[me].phase.ino) else Err(Unavailable(CouldNotWrite)));
    }

    /** The retry loop: how it ended, or nothing when it gave up. */
    method Retry(me: Pid) returns (end: Option<Result<Inode, LockError>>)
      requires Valid() && me in sys.procs && sys.procs[me].phase == Opening(0)
      modifies this
      ensures Valid() && old(trace) <= trace
      ensures me in sys.procs && sys.procs[me].since == old(sys).procs[me].since
      ensures sys.procs[me].phase ==
                match end
                case None => Failed(KeptBeingReplaced)
                case Some(Ok(ino)) => Holding(ino)
                case Some(Err(AnotherHoldsIt)) => Held
                case Some(Err(Unavailable(why))) => Failed(why)
      ensures Smooth(old(world)) && end.Some? ==> end.value.Ok? || end.value == Err(AnotherHoldsIt)
      ensures end == Some(Err(AnotherHoldsIt)) ==> exists i :: OwnedByAnother(sys, i, me)
      ensures old(world) == [] ==> end.Some? && IsTheAnswer(old(sys), end.value)
    {
      for round := 0 to ATTEMPTS
        invariant Valid() && old(trace) <= trace
        invariant me in sys.procs && sys.procs[me].since == old(sys).procs[me].since
        invariant Smooth(old(world)) ==> Smooth(world)
        invariant round == 0 ==> world == old(world) && sys == old(sys)
        invariant round > 0 ==> old(world) != []
        invariant sys.procs[me].phase == if round < ATTEMPTS then Opening(round) else Failed(KeptBeingReplaced)
      {
        end := Round(me);
        if end.Some? {
          return;
        }
      }
      return None;
    }

    /** Take the lock, or say why not. */
    method Acquire(me: Pid) returns (r: Result<Inode, LockError>)
      requires Valid() && Idle(sys, me)
      modifies this
      ensures Valid() && old(trace) <= trace && me in sys.procs
      // The lock is what every other process sees, and the file says whose it is.
      ensures r.Ok? ==> sys.procs[me].phase == Holding(r.value) && IsTheDaemon(sys, me)
      // Without it, no lock is kept.
      ensures r.Err? ==> OwnsNothing(sys, me)
      ensures r == Err(AnotherHoldsIt) ==> sys.procs[me].phase == Held && exists i :: OwnedByAnother(sys, i, me)
      ensures r.Err? && r.error.Unavailable? ==> sys.procs[me].phase == Failed(r.error.why)
      // Giving up takes eight removals by others, and any other failure a system call that failed.
      ensures r == Err(Unavailable(KeptBeingReplaced)) && sys.procs[me].excuses == 0 ==>
                |old(sys).unlinks| + 8 <= |sys.unlinks|
      ensures Smooth(old(world)) && r.Err? && r.error.Unavailable? ==> r.error.why == KeptBeingReplaced
      // Undisturbed, the answer is in the lock table.
      ensures old(world) == [] ==> IsTheAnswer(old(sys), r)
    {
      Do(Start(me));
      var end := Retry(me);
      if end.Some? && end.value.Ok? {
        AtMostOneDaemon(trace, me);
      } else {
        FinishedOwnsNothing(trace, me);
      }
      return if end.Some? then end.value else Err(Unavailable(KeptBeingReplaced));
    }
  }

  ghost predicate OwnedByAnother(s: Sys, i: Inode, me: Pid) {
    i in s.owner && s.owner[i] != me
  }

  /** A process that only has the file open is not the owner of any lock on it. */
  lemma AnotherOwns(acts: seq<Action>, me: Pid, i: Inode)
    requires me in Exec(Init, acts).procs && !HasLock(Exec(Init, acts).procs[me].phase)
    ensures i in Exec(Init, acts).owner ==> OwnedByAnother(Exec(Init, acts), i, me)
  {
    InvOverRuns(Init, acts);
  }

  /** Opening with nobody about leaves the locks, and the file there is; a new one is not locked. */
  predicate OpensAlone(s: Sys, t: Sys) {
    t.owner == s.owner && t.path.Some? && if s.path.Some? then t.path == s.path else t.path.value !in t.owner
  }

  /** What one process alone is answered: the lock on the file at the path, or on a new one, unless that file is locked. */
  predicate IsTheAnswer(s: Sys, r: Result<Inode, LockError>) {
    if s.path.Some? then r == if s.path.value in s.owner then Err(AnotherHoldsIt) else Ok(s.path.value)
    else r.Ok? && r.value !in s.owner
  }

  /** A number free for a new file is the number of no locked one. */
  lemma FreeMeansUnowned(acts: seq<Action>, i: Inode)
    requires FreeInode(Exec(Init, acts), i)
    ensures i !in Exec(Init, acts).owner
  {
    InvOverRuns(Init, acts);
  }
}
