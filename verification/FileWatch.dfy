/** Comparing scans, and waiting for a watched tree to settle. */
module FileWatch {
  import opened Prelude
  import opened TreeScan

  const MAX_DEBOUNCE_ROUNDS := 10

  // ── The order of paths ────────────────────────────────────────────────────

  lemma {:induction false} BeforeIsTotal(a: Path, b: Path)
    ensures a == b || Before(a, b) || Before(b, a)
    ensures !(Before(a, b) && Before(b, a))
    decreases |b|
  {
    if a != [] && b != [] {
      BeforeIsTotal(a[1..], b[1..]);
      assert a == [a[0]] + a[1..] && b == [b[0]] + b[1..];
    }
  }

  lemma {:induction false} BeforeIsTransitive(a: Path, b: Path, c: Path)
    requires !Before(b, a) && !Before(c, b)
    ensures !Before(c, a)
    decreases |a|
  {
    if a != [] && b != [] && c != [] {
      if a[0] == b[0] == c[0] {
        BeforeIsTransitive(a[1..], b[1..], c[1..]);
      }
    }
  }

  ghost predicate NonDescending(s: seq<Path>) {
    forall i, j :: 0 <= i < j < |s| ==> !Before(s[j], s[i])
  }

  ghost predicate Ascending(s: seq<Path>) {
    forall i, j :: 0 <= i < j < |s| ==> Before(s[i], s[j])
  }

  /** Put a path into a sorted list, after its equals. */
  function InsertPath(s: seq<Path>, p: Path): seq<Path> {
    if s == [] || !Before(p, s[|s| - 1]) then s + [p] else InsertPath(s[..|s| - 1], p) + [s[|s| - 1]]
  }

  function SortPaths(s: seq<Path>): seq<Path> {
    if s == [] then [] else InsertPath(SortPaths(s[..|s| - 1]), s[|s| - 1])
  }

  /** Drop what repeats its neighbour. */
  function Dedup(s: seq<Path>): seq<Path> {
    if s == [] then []
    else if |s| > 1 && s[|s| - 1] == s[|s| - 2] then Dedup(s[..|s| - 1])
    else Dedup(s[..|s| - 1]) + [s[|s| - 1]]
  }

  lemma {:induction false} InsertPathSorts(s: seq<Path>, p: Path)
    requires NonDescending(s)
    ensures NonDescending(InsertPath(s, p))
    ensures forall q :: q in InsertPath(s, p) <==> q in s || q == p
  {
    if s == [] || !Before(p, s[|s| - 1]) {
      forall i | 0 <= i < |s| ensures !Before(p, s[i]) {
        if i < |s| - 1 {
          BeforeIsTransitive(s[i], s[|s| - 1], p);
        }
      }
    } else {
      var init, last := s[..|s| - 1], s[|s| - 1];
      InsertPathSorts(init, p);
      BeforeIsTotal(p, last);
      forall q | q in InsertPath(init, p) ensures !Before(last, q) {
        assert q in init || q == p;
      }
    }
  }

  lemma {:induction false} SortPathsSorts(s: seq<Path>)
    ensures NonDescending(SortPaths(s)) && forall q :: q in SortPaths(s) <==> q in s
  {
    if s != [] {
      SortPathsSorts(s[..|s| - 1]);
      InsertPathSorts(SortPaths(s[..|s| - 1]), s[|s| - 1]);
      assert forall q :: q in s <==> q in s[..|s| - 1] || q == s[|s| - 1];
    }
  }

  lemma {:induction false} DedupMakesAscending(s: seq<Path>)
    requires NonDescending(s)
    ensures Ascending(Dedup(s)) && (forall q :: q in Dedup(s) <==> q in s)
    ensures s != [] ==> Dedup(s) != [] && Dedup(s)[|Dedup(s)| - 1] == s[|s| - 1]
  {
    if s != [] {
      var init, last := s[..|s| - 1], s[|s| - 1];
      DedupMakesAscending(init);
      assert forall q :: q in s <==> q in init || q == last;
      if |s| > 1 && last != s[|s| - 2] {
        BeforeIsTotal(s[|s| - 2], last);
        forall i | 0 <= i < |Dedup(init)| ensures Before(Dedup(init)[i], last) {
          BeforeOrSame(Dedup(init), i, last);
        }
      }
    }
  }

  lemma BeforeOrSame(d: seq<Path>, i: nat, last: Path)
    requires Ascending(d) && i < |d| && Before(d[|d| - 1], last)
    ensures Before(d[i], last)
  {
    if i < |d| - 1 {
      BeforeIsTotal(d[i], d[|d| - 1]);
      BeforeIsTotal(d[|d| - 1], last);
      BeforeIsTotal(d[i], last);
      BeforeIsTransitive(d[i], d[|d| - 1], last);
      assert d[i] != last;
    }
  }

  // ── Differences ───────────────────────────────────────────────────────────

  /** The two scans do not say the same of this path. */
  predicate Differs(a: Files, b: Files, p: Path) {
    Get(a, p) != Get(b, p)
  }

  ghost predicate ListsDifferences(changed: seq<Path>, a: Files, b: Files) {
    forall p :: p in changed <==> Differs(a, b, p)
  }

  /** The listed paths are those among `seen` that differ. */
  ghost predicate ListsAmong(changed: seq<Path>, seen: set<Path>, a: Files, b: Files) {
    forall p :: p in changed <==> p in seen && Differs(a, b, p)
  }

  /** The paths of the next scan that are new or have another stamp. */
  method NewOrChanged(before: Files, next: Files) returns (changed: seq<Path>)
    ensures ListsAmong(changed, next.Keys, before, next)
  {
    changed := [];
    var rest := next.Keys;
    while rest != {}
      invariant rest <= next.Keys && ListsAmong(changed, next.Keys - rest, before, next)
      decreases |rest|
    {
      var p :| p in rest;
      assert next.Keys - (rest - {p}) == next.Keys - rest + {p};
      rest := rest - {p};
      if Get(before, p) != Some(next[p]) {
        changed := changed + [p];
      }
    }
  }

  /** And then the paths that are gone. */
  method AndGone(before: Files, next: Files, found: seq<Path>) returns (changed: seq<Path>)
    requires ListsAmong(found, next.Keys, before, next)
    ensures ListsAmong(changed, next.Keys + before.Keys, before, next)
  {
    changed := found;
    var rest := before.Keys;
    ghost var seen := next.Keys;
    while rest != {}
      invariant ListsAmong(changed, seen, before, next)
      invariant next.Keys <= seen && seen + rest == next.Keys + before.Keys
      decreases |rest|
    {
      var p :| p in rest;
      if p !in next {
        changed := changed + [p];
      } else {
        assert seen + {p} == seen;
      }
      seen := seen + {p};
      rest := rest - {p};
    }
  }

  /** Where two scans differ, as a sorted list. */
  method Changes(before: Files, next: Files) returns (changed: seq<Path>)
    ensures ListsDifferences(changed, before, next) && Ascending(changed)
  {
    changed := NewOrChanged(before, next);
    changed := AndGone(before, next, changed);
    SortPathsSorts(changed);
    DedupMakesAscending(SortPaths(changed));
    changed := Dedup(SortPaths(changed));
  }

  lemma NoDifferencesMeansEqual(a: Files, b: Files)
    ensures (forall p :: !Differs(a, b, p)) <==> a == b
  {
    if forall p :: !Differs(a, b, p) {
      forall p ensures (p in a <==> p in b) && (p in a ==> a[p] == b[p]) {
        assert !Differs(a, b, p);
      }
    }
  }

  /** A path that changed at some step of a series of scans. */
  ghost predicate DiffersSomewhere(scans: seq<Files>, p: Path) {
    exists k :: 0 < k < |scans| && Differs(scans[k - 1], scans[k], p)
  }

  /** Nothing that differs between the first scan and the last is missed by the steps. */
  lemma {:induction false} StepsCoverTheWhole(scans: seq<Files>, p: Path)
    requires scans != [] && Differs(scans[0], scans[|scans| - 1], p)
    ensures DiffersSomewhere(scans, p)
  {
    if |scans| > 1 {
      var init := scans[..|scans| - 1];
      if Differs(init[0], init[|init| - 1], p) {
        StepsCoverTheWhole(init, p);
        var k :| 0 < k < |init| && Differs(init[k - 1], init[k], p);
        assert Differs(scans[k - 1], scans[k], p);
      } else {
        assert Differs(scans[|scans| - 2], scans[|scans| - 1], p);
      }
    }
  }

  // ── The debounce ──────────────────────────────────────────────────────────

  /** The `k`-th scan, or none when scanning has come to an end. */
  function ScanAt(stream: seq<Option<Files>>, k: nat): Option<Files> {
    if k < |stream| then stream[k] else None
  }

  ghost predicate ListsSteps(changed: seq<Path>, scans: seq<Files>) {
    forall p :: p in changed <==> DiffersSomewhere(scans, p)
  }

  lemma OneMoreStep(changed: seq<Path>, extra: seq<Path>, scans: seq<Files>, settled: Files)
    requires scans != [] && ListsSteps(changed, scans)
    requires ListsDifferences(extra, scans[|scans| - 1], settled)
    ensures ListsSteps(changed + extra, scans + [settled])
  {
    var more := scans + [settled];
    forall p ensures DiffersSomewhere(more, p) <==> DiffersSomewhere(scans, p) || Differs(scans[|scans| - 1], settled, p) {
      if DiffersSomewhere(scans, p) {
        var k :| 0 < k < |scans| && Differs(scans[k - 1], scans[k], p);
        assert Differs(more[k - 1], more[k], p);
      }
      if Differs(scans[|scans| - 1], settled, p) {
        assert Differs(more[|scans| - 1], more[|scans|], p);
      }
      if DiffersSomewhere(more, p) {
        var k :| 0 < k < |more| && Differs(more[k - 1], more[k], p);
        if k < |scans| {
          assert Differs(scans[k - 1], scans[k], p);
        }
      }
    }
  }

  /** What a trigger reports: the changed paths, and how many scans the wait for quiet took. */
  datatype Trigger = Trigger(changed: seq<Path>, rounds: nat)

  /** The scans of the wait, after the baseline and the first that differed from it. */
  ghost predicate Came(stream: seq<Option<Files>>, scans: seq<Files>) {
    |scans| <= |stream| && forall k :: 0 <= k < |scans| ==> stream[k] == Some(scans[k])
  }

  /** No two scans of the wait in a row were the same. */
  ghost predicate Restless(scans: seq<Files>) {
    forall k :: 2 <= k < |scans| ==> scans[k] != scans[k - 1]
  }

  /** Quiet came at the end of the wait and not before. */
  ghost predicate QuietAtLast(scans: seq<Files>, rounds: nat)
    requires |scans| == rounds + 2
  {
    && rounds <= 10
    && Restless(scans[..|scans| - 1])
    && (rounds < 10 ==> rounds > 0 && scans[|scans| - 1] == scans[|scans| - 2])
  }

  /** Where the wait stands after some rounds, of which only the last can have been quiet. */
  ghost predicate Stands(previous: Files, current: Files, stream: seq<Option<Files>>, scans: seq<Files>, all: seq<Path>,
                         quiet: bool) {
    && |scans| >= 2 && scans[0] == previous && scans[1] == current
    && Came(stream, scans[2..]) && ListsSteps(all, scans)
    && Restless(scans[..|scans| - 1])
    && (quiet <==> |scans| > 2 && scans[|scans| - 1] == scans[|scans| - 2])
  }

  /** Before the first round. */
  lemma TheWaitBegins(previous: Files, current: Files, stream: seq<Option<Files>>, changed: seq<Path>)
    requires ListsDifferences(changed, previous, current)
    ensures Stands(previous, current, stream, [previous, current], changed, false)
  {
    var scans := [previous, current];
    forall p ensures p in changed <==> DiffersSomewhere(scans, p) {
      if Differs(previous, current, p) {
        assert Differs(scans[1 - 1], scans[1], p);
      }
    }
  }

  /** One more scan that was taken: the steps it adds, and whether it brought quiet. */
  lemma OneMoreRound(previous: Files, current: Files, stream: seq<Option<Files>>, scans: seq<Files>, all: seq<Path>,
                     settled: Files, extra: seq<Path>)
    requires Stands(previous, current, stream, scans, all, false)
    requires |scans| - 2 < |stream| && stream[|scans| - 2] == Some(settled)
    requires ListsDifferences(extra, scans[|scans| - 1], settled)
    ensures Stands(previous, current, stream, scans + [settled], all + extra, |extra| == 0)
  {
    var more := scans + [settled];
    OneMoreStep(all, extra, scans, settled);
    QuietMeansEqual(extra, scans[|scans| - 1], settled);
    assert more[2..] == scans[2..] + [settled];
    assert more[..|more| - 1] == scans;
  }

  /**
   How a wait ends: with a trigger at the first quiet or after the last round,
   listing every step of `scans`; or with none, when a scan it needed never came.
   */
  ghost predicate Ends(previous: Files, current: Files, stream: seq<Option<Files>>, scans: seq<Files>, r: Option<Trigger>) {
    && |scans| >= 2 && scans[0] == previous && scans[1] == current && Came(stream, scans[2..])
    && (r.None? ==> |scans| - 2 < 10 && Restless(scans) && ScanAt(stream, |scans| - 2).None?)
    && (r.Some? ==>
          && r.value.rounds == |scans| - 2 && QuietAtLast(scans, r.value.rounds)
          && ListsSteps(r.value.changed, scans) && Ascending(r.value.changed))
  }

  lemma AScanIsMissing(previous: Files, current: Files, stream: seq<Option<Files>>, scans: seq<Files>, all: seq<Path>)
    requires Stands(previous, current, stream, scans, all, false)
    requires |scans| - 2 < MAX_DEBOUNCE_ROUNDS && ScanAt(stream, |scans| - 2).None?
    ensures Ends(previous, current, stream, scans, None)
  {
  }

  lemma TheWaitIsOver(previous: Files, current: Files, stream: seq<Option<Files>>, scans: seq<Files>, all: seq<Path>,
                      quiet: bool, t: Trigger)
    requires Stands(previous, current, stream, scans, all, quiet)
    requires |scans| == t.rounds + 2 && t.rounds <= MAX_DEBOUNCE_ROUNDS && (quiet || t.rounds == MAX_DEBOUNCE_ROUNDS)
    requires Ascending(t.changed) && forall p :: p in t.changed <==> p in all
    ensures Ends(previous, current, stream, scans, Some(t))
  {
  }

  /** One round: compare the scan that came with the one before. */
  method Round(previous: Files, current: Files, ghost stream: seq<Option<Files>>, ghost scans: seq<Files>, all: seq<Path>,
               latest: Files, settled: Files)
    returns (all': seq<Path>, quiet: bool)
    requires Stands(previous, current, stream, scans, all, false) && latest == scans[|scans| - 1]
    requires |scans| - 2 < |stream| && stream[|scans| - 2] == Some(settled)
    ensures Stands(previous, current, stream, scans + [settled], all', quiet)
  {
    var extra := Changes(latest, settled);
    OneMoreRound(previous, current, stream, scans, all, settled, extra);
    return all + extra, |extra| == 0;
  }

  /** The loop of the wait: scan, compare, and stop at the first quiet or after ten rounds. */
  method Debounce(previous: Files, current: Files, changed: seq<Path>, stream: seq<Option<Files>>)
    returns (r: Option<Trigger>)
    requires ListsDifferences(changed, previous, current)
    ensures exists scans :: Ends(previous, current, stream, scans, r)
  {
    var all, latest, round, quiet := changed, current, 0, false;
    ghost var scans := [previous, current];
    TheWaitBegins(previous, current, stream, changed);
    while round < MAX_DEBOUNCE_ROUNDS && !quiet
      invariant round <= MAX_DEBOUNCE_ROUNDS && |scans| == round + 2 && latest == scans[|scans| - 1]
      invariant Stands(previous, current, stream, scans, all, quiet)
    {
      var settled := ScanAt(stream, round);
      if settled.None? {
        AScanIsMissing(previous, current, stream, scans, all);
        return None;
      }
      all, quiet := Round(previous, current, stream, scans, all, latest, settled.value);
      scans := scans + [settled.value];
      latest := settled.value;
      round := round + 1;
    }
    var trigger := Report(all, round);
    TheWaitIsOver(previous, current, stream, scans, all, quiet, trigger);
    return Some(trigger);
  }

  /** The last sort: it makes the report a list without repeats. */
  method Report(all: seq<Path>, round: nat) returns (t: Trigger)
    ensures t.rounds == round && Ascending(t.changed)
    ensures forall p :: p in t.changed <==> p in all
  {
    SortPathsSorts(all);
    DedupMakesAscending(SortPaths(all));
    t := Trigger(Dedup(SortPaths(all)), round);
  }

  lemma QuietMeansEqual(extra: seq<Path>, a: Files, b: Files)
    requires ListsDifferences(extra, a, b)
    ensures |extra| == 0 <==> a == b
  {
    NoDifferencesMeansEqual(a, b);
    if |extra| > 0 {
      assert extra[0] in extra;
    }
  }

  /**
   What a trigger reports covers every path that differs between the baseline
   and the last scan taken, and names no path that did not change on the way.
   */
  lemma ATriggerCoversTheChange(t: Trigger, scans: seq<Files>, p: Path)
    requires scans != [] && ListsSteps(t.changed, scans)
    ensures Differs(scans[0], scans[|scans| - 1], p) ==> p in t.changed
    ensures p in t.changed ==> DiffersSomewhere(scans, p)
  {
    if Differs(scans[0], scans[|scans| - 1], p) {
      StepsCoverTheWhole(scans, p);
    }
  }

  /** What is told about a trigger: the first changed path and how many there are. */
  datatype Event = WatchTriggered(path: Path, changed: nat)

  /** What one turn of the watch went through: scans like the baseline, then the baseline and those of the wait. */
  ghost predicate Watched(previous: Files, stream: seq<Option<Files>>, skipped: nat, scans: seq<Files>) {
    && skipped <= |stream| && (forall k :: 0 <= k < skipped ==> stream[k] == Some(previous))
    && (scans != [] ==>
          && |scans| >= 2 && scans[0] == previous && scans[1] != previous
          && Came(stream[skipped..], scans[1..]))
  }

  /** How such a turn ends: it tells of a change once it waited for quiet, or a scan it needed never came. */
  ghost predicate TurnEnds(previous: Files, stream: seq<Option<Files>>, skipped: nat, scans: seq<Files>, event: Option<Event>) {
    && Watched(previous, stream, skipped, scans)
    && (event.Some? ==> |scans| >= 2 && QuietAtLast(scans, |scans| - 2) && Tells(event.value, scans))
    && (event.None? ==>
          if scans == [] then ScanAt(stream, skipped).None?
          else |scans| - 2 < 10 && Restless(scans) && ScanAt(stream, skipped + |scans| - 1).None?)
  }

  /** Scan until something changes, wait for quiet, and say what changed. */
  method NextTrigger(previous: Files, stream: seq<Option<Files>>) returns (event: Option<Event>)
    ensures exists skipped: nat, scans :: TurnEnds(previous, stream, skipped, scans, event)
  {
    var at := 0;
    while at < |stream|
      invariant at <= |stream| && forall k :: 0 <= k < at ==> stream[k] == Some(previous)
    {
      var current := stream[at];
      if current.None? {
        break;
      }
      var changed := Changes(previous, current.value);
      QuietMeansEqual(changed, previous, current.value);
      if |changed| != 0 {
        var trigger := Debounce(previous, current.value, changed, stream[at + 1..]);
        ghost var scans :| Ends(previous, current.value, stream[at + 1..], scans, trigger);
        CameAfter(stream, at, scans);
        if trigger.None? {
          assert TurnEnds(previous, stream, at, scans, None);
          return None;
        }
        ThereIsAFirst(trigger.value.changed, scans, changed[0]);
        event := Some(WatchTriggered(trigger.value.changed[0], |trigger.value.changed|));
        assert TurnEnds(previous, stream, at, scans, event);
        return event;
      }
      at := at + 1;
    }
    assert TurnEnds(previous, stream, at, [], None);
    return None;
  }

  /** The event names the least path that changed on the way, and counts them all. */
  ghost predicate Tells(e: Event, scans: seq<Files>) {
    exists changed: seq<Path> ::
      && ListsSteps(changed, scans) && Ascending(changed)
      && |changed| == e.changed > 0 && changed[0] == e.path
  }

  lemma ThereIsAFirst(changed: seq<Path>, scans: seq<Files>, p: Path)
    requires |scans| >= 2 && ListsSteps(changed, scans) && Differs(scans[0], scans[1], p)
    ensures changed != []
  {
    assert Differs(scans[1 - 1], scans[1], p);
    assert DiffersSomewhere(scans, p);
  }

  lemma CameAfter(stream: seq<Option<Files>>, at: nat, scans: seq<Files>)
    requires at < |stream| && |scans| >= 2 && stream[at] == Some(scans[1])
    requires Came(stream[at + 1..], scans[2..])
    ensures Came(stream[at..], scans[1..])
  {
  }
}
