/** Scanning the watched part of a file system. */
module TreeScan {
  import opened Prelude

  const MAX_ENTRIES := 20_000

  const MAX_DEPTH := 64

  /** A name by its rank in the order of names; a path lists its components. */
  type Name = int

  type Path = seq<Name>

  datatype FileStamp = FileStamp(modified: Option<int>, len: nat)

  type Files = map<Path, FileStamp>

  // ── The file system ───────────────────────────────────────────────────────

  /**
   What is found at a path.  A directory's entries stand in the order of their
   names; one that cannot be listed has none.
   */
  datatype Node = File(stamp: FileStamp) | Dir(entries: seq<Entry>) | Unreadable

  datatype Entry = Entry(name: Name, node: Node)

  datatype Root = Root(path: Path, node: Node)

  ghost predicate Distinct(entries: seq<Entry>) {
    forall i, j :: 0 <= i < j < |entries| ==> entries[i].name != entries[j].name
  }

  ghost predicate WellFormed(node: Node) {
    node.Dir? ==> Distinct(node.entries) && forall i :: 0 <= i < |node.entries| ==> WellFormed(node.entries[i].node)
  }

  /** The node at a relative path. */
  function Lookup(node: Node, path: Path): Option<Node>
    decreases |path|
  {
    if path == [] then Some(node)
    else if !node.Dir? then None
    else
      match Find(node.entries, path[0])
      case None => None
      case Some(k) => Lookup(node.entries[k].node, path[1..])
  }

  function Find(entries: seq<Entry>, name: Name): (at: Option<nat>)
    ensures at.Some? ==> at.value < |entries| && entries[at.value].name == name
    ensures at.None? ==> forall i :: 0 <= i < |entries| ==> entries[i].name != name
  {
    if entries == [] then None
    else if entries[|entries| - 1].name == name then Some(|entries| - 1)
    else Find(entries[..|entries| - 1], name)
  }

  // ── What a scan should record ─────────────────────────────────────────────

  predicate Skipped(ignored: Path -> bool, relative: Path) {
    relative != [] && ignored(relative)
  }

  function Width(node: Node): nat {
    if node.Dir? then |node.entries| else 0
  }

  /** The files below one node, by absolute path. */
  function Found(ignored: Path -> bool, root: Path, relative: Path, node: Node): Files
    decreases node, Width(node) + 1
  {
    if Skipped(ignored, relative) then map[]
    else
      match node
      case Unreadable => map[]
      case File(stamp) => map[root + relative := stamp]
      case Dir(entries) =>
        if |relative| >= MAX_DEPTH then map[] else FoundAmong(ignored, root, relative, node, |entries|)
  }

  /** The files below the first `k` entries of a directory. */
  function FoundAmong(ignored: Path -> bool, root: Path, relative: Path, dir: Node, k: nat): Files
    requires dir.Dir? && k <= |dir.entries|
    decreases dir, k
  {
    if k == 0 then map[]
    else
      FoundAmong(ignored, root, relative, dir, k - 1)
      + Found(ignored, root, relative + [dir.entries[k - 1].name], dir.entries[k - 1].node)
  }

  /** Whether a directory is reached that is as deep as the scan goes. */
  predicate TooDeep(ignored: Path -> bool, relative: Path, node: Node)
    decreases node, Width(node) + 1
  {
    && !Skipped(ignored, relative)
    && node.Dir?
    && (|relative| >= MAX_DEPTH || TooDeepAmong(ignored, relative, node, |node.entries|))
  }

  predicate TooDeepAmong(ignored: Path -> bool, relative: Path, dir: Node, k: nat)
    requires dir.Dir? && k <= |dir.entries|
    decreases dir, k
  {
    && k > 0
    && (|| TooDeepAmong(ignored, relative, dir, k - 1)
        || TooDeep(ignored, relative + [dir.entries[k - 1].name], dir.entries[k - 1].node))
  }

  /** Every root, a later one replacing what an earlier one recorded for the same path. */
  function FoundInRoots(ignored: Path -> bool, roots: seq<Root>): Files {
    if roots == [] then map[]
    else
      FoundInRoots(ignored, roots[..|roots| - 1])
      + Found(ignored, roots[|roots| - 1].path, [], roots[|roots| - 1].node)
  }

  predicate TooDeepInRoots(ignored: Path -> bool, roots: seq<Root>) {
    roots != [] && (TooDeepInRoots(ignored, roots[..|roots| - 1]) || TooDeep(ignored, [], roots[|roots| - 1].node))
  }

  // ── The walk, visit by visit ──────────────────────────────────────────────

  /** What the walk comes to at one node: a file to record, a directory too deep to enter, or nothing to note. */
  datatype Visit = Record(path: Path, stamp: FileStamp) | Bottom | Pass

  /** The visits of an unlimited walk, in its order. */
  function Visits(ignored: Path -> bool, root: Path, relative: Path, node: Node): seq<Visit>
    decreases node, Width(node) + 1
  {
    if Skipped(ignored, relative) then [Pass]
    else
      match node
      case Unreadable => [Pass]
      case File(stamp) => [Record(root + relative, stamp)]
      case Dir(entries) =>
        if |relative| >= MAX_DEPTH then [Bottom]
        else [Pass] + VisitsAmong(ignored, root, relative, node, |entries|)
  }

  function VisitsAmong(ignored: Path -> bool, root: Path, relative: Path, dir: Node, k: nat): seq<Visit>
    requires dir.Dir? && k <= |dir.entries|
    decreases dir, k
  {
    if k == 0 then []
    else
      VisitsAmong(ignored, root, relative, dir, k - 1)
      + Visits(ignored, root, relative + [dir.entries[k - 1].name], dir.entries[k - 1].node)
  }

  function VisitsInRoots(ignored: Path -> bool, roots: seq<Root>): seq<Visit> {
    if roots == [] then []
    else
      VisitsInRoots(ignored, roots[..|roots| - 1])
      + Visits(ignored, roots[|roots| - 1].path, [], roots[|roots| - 1].node)
  }

  datatype Scanned = Scanned(files: Files, truncated: bool, tooDeep: bool)

  const NOTHING := Scanned(map[], false, false)

  /** One visit, unless the scan was cut short: the limit comes first, whatever is found. */
  function Take(s: Scanned, v: Visit): Scanned {
    if s.truncated then s
    else if |s.files| >= MAX_ENTRIES then s.(truncated := true)
    else
      match v
      case Record(path, stamp) => s.(files := s.files[path := stamp])
      case Bottom => s.(tooDeep := true)
      case Pass => s
  }

  function TakeAll(s: Scanned, visits: seq<Visit>): Scanned
    decreases |visits|
  {
    if visits == [] then s else TakeAll(Take(s, visits[0]), visits[1..])
  }

  lemma {:induction false} TakeBoth(s: Scanned, a: seq<Visit>, b: seq<Visit>)
    ensures TakeAll(s, a + b) == TakeAll(TakeAll(s, a), b)
    decreases |a|
  {
    if a == [] {
      assert a + b == b;
    } else {
      TakeBoth(Take(s, a[0]), a[1..], b);
      assert (a + b)[1..] == a[1..] + b;
    }
  }

  lemma {:induction false} CutShortStays(s: Scanned, visits: seq<Visit>)
    requires s.truncated
    ensures TakeAll(s, visits) == s
    decreases |visits|
  {
    if visits != [] {
      CutShortStays(s, visits[1..]);
    }
  }

  // ── The code ──────────────────────────────────────────────────────────────

  class Scan {
    var files: Files
    var truncated: bool
    var tooDeep: bool

    constructor ()
      ensures View() == NOTHING
    {
      files, truncated, tooDeep := map[], false, false;
    }

    function View(): Scanned
      reads this
    {
      Scanned(files, truncated, tooDeep)
    }

    method Walk(ignored: Path -> bool, root: Path, relative: Path, node: Node, depth: nat)
      requires !truncated && depth == |relative|
      modifies this
      ensures View() == TakeAll(old(View()), Visits(ignored, root, relative, node))
      decreases node, 2
    {
      ghost var start := View();
      if |files| >= MAX_ENTRIES {
        truncated := true;
        CutShortStays(View(), Visits(ignored, root, relative, node)[1..]);
        return;
      }
      if relative != [] && ignored(relative) {
        return;
      }
      match node
      case Unreadable =>
      case Dir(entries) =>
        if depth >= MAX_DEPTH {
          tooDeep := true;
          return;
        }
        WalkEntries(ignored, root, relative, node, depth);
        TakeBoth(start, [Pass], VisitsAmong(ignored, root, relative, node, |entries|));
      case File(stamp) =>
        files := files[root + relative := stamp];
    }

    method WalkEntries(ignored: Path -> bool, root: Path, relative: Path, dir: Node, depth: nat)
      requires dir.Dir? && !truncated && depth == |relative|
      modifies this
      ensures View() == TakeAll(old(View()), VisitsAmong(ignored, root, relative, dir, |dir.entries|))
      decreases dir, 1
    {
      ghost var start := View();
      for k := 0 to |dir.entries|
        invariant !truncated && View() == TakeAll(start, VisitsAmong(ignored, root, relative, dir, k))
      {
        WalkEntry(ignored, root, relative, dir, depth, k, start);
        if truncated {
          EarlierEntriesFirst(ignored, root, relative, dir, k + 1, |dir.entries|);
          CutShortBefore(start, VisitsAmong(ignored, root, relative, dir, k + 1),
            VisitsAmong(ignored, root, relative, dir, |dir.entries|));
          return;
        }
      }
    }

    method WalkEntry(ignored: Path -> bool, root: Path, relative: Path, dir: Node, depth: nat, k: nat,
                     ghost start: Scanned)
      requires dir.Dir? && k < |dir.entries| && !truncated && depth == |relative|
      requires View() == TakeAll(start, VisitsAmong(ignored, root, relative, dir, k))
      modifies this
      ensures View() == TakeAll(start, VisitsAmong(ignored, root, relative, dir, k + 1))
      decreases dir, 0
    {
      var child := dir.entries[k];
      Walk(ignored, root, relative + [child.name], child.node, depth + 1);
      OneMoreEntry(ignored, root, relative, dir, k, start);
    }

    method Run(ignored: Path -> bool, roots: seq<Root>)
      requires View() == NOTHING
      modifies this
      ensures View() == TakeAll(NOTHING, VisitsInRoots(ignored, roots))
    {
      for k := 0 to |roots|
        invariant !truncated && View() == TakeAll(NOTHING, VisitsInRoots(ignored, roots[..k]))
      {
        assert roots[..k + 1][..k] == roots[..k] && roots[..k + 1][k] == roots[k];
        Walk(ignored, roots[k].path, [], roots[k].node, 0);
        TakeBoth(NOTHING, VisitsInRoots(ignored, roots[..k]), Visits(ignored, roots[k].path, [], roots[k].node));
        if truncated {
          EarlierRootsFirst(ignored, roots, k + 1);
          CutShortBefore(NOTHING, VisitsInRoots(ignored, roots[..k + 1]), VisitsInRoots(ignored, roots));
          return;
        }
      }
      assert roots[..|roots|] == roots;
    }
  }

  lemma OneMoreEntry(ignored: Path -> bool, root: Path, relative: Path, dir: Node, k: nat, s: Scanned)
    requires dir.Dir? && k < |dir.entries|
    ensures
      var child := dir.entries[k];
      TakeAll(TakeAll(s, VisitsAmong(ignored, root, relative, dir, k)),
        Visits(ignored, root, relative + [child.name], child.node))
      == TakeAll(s, VisitsAmong(ignored, root, relative, dir, k + 1))
  {
    var child := dir.entries[k];
    TakeBoth(s, VisitsAmong(ignored, root, relative, dir, k),
      Visits(ignored, root, relative + [child.name], child.node));
  }

  lemma CutShortBefore(s: Scanned, made: seq<Visit>, visits: seq<Visit>)
    requires made <= visits && TakeAll(s, made).truncated
    ensures TakeAll(s, visits) == TakeAll(s, made)
  {
    assert visits == made + visits[|made|..];
    TakeBoth(s, made, visits[|made|..]);
    CutShortStays(TakeAll(s, made), visits[|made|..]);
  }

  lemma {:induction false} EarlierEntriesFirst(
      ignored: Path -> bool, root: Path, relative: Path, dir: Node, k: nat, n: nat)
    requires dir.Dir? && k <= n <= |dir.entries|
    ensures VisitsAmong(ignored, root, relative, dir, k) <= VisitsAmong(ignored, root, relative, dir, n)
    decreases n - k
  {
    if k < n {
      EarlierEntriesFirst(ignored, root, relative, dir, k, n - 1);
    }
  }

  lemma {:induction false} EarlierRootsFirst(ignored: Path -> bool, roots: seq<Root>, k: nat)
    requires k <= |roots|
    ensures VisitsInRoots(ignored, roots[..k]) <= VisitsInRoots(ignored, roots)
    decreases |roots|
  {
    if k < |roots| {
      assert roots[..|roots| - 1][..k] == roots[..k];
      EarlierRootsFirst(ignored, roots[..|roots| - 1], k);
    } else {
      assert roots[..k] == roots;
    }
  }

  // ── When a scan is cut short, and what it then holds ──────────────────────

  /** What the visits record when nothing limits them. */
  function Recorded(visits: seq<Visit>): Files {
    if visits == [] then map[]
    else
      var before, last := Recorded(visits[..|visits| - 1]), visits[|visits| - 1];
      if last.Record? then before[last.path := last.stamp] else before
  }

  lemma {:induction false} RecordedGrows(visits: seq<Visit>, k: nat)
    requires k <= |visits|
    ensures Recorded(visits[..k]).Keys <= Recorded(visits).Keys
    ensures |Recorded(visits[..k])| <= |Recorded(visits)|
    decreases |visits|
  {
    if k < |visits| {
      var init := visits[..|visits| - 1];
      assert init[..k] == visits[..k] && visits == init + [visits[|visits| - 1]];
      RecordedGrows(init, k);
    } else {
      assert visits[..k] == visits;
    }
  }

  /**
   The scan stopped after `n` visits: it holds exactly what those record, with
   their stamps, the limit was met by none before the last of them, and it says
   that it was cut short when a visit was left to make.
   */
  ghost predicate StoppedAfter(visits: seq<Visit>, s: Scanned, n: nat) {
    && n <= |visits|
    && s.files == Recorded(visits[..n]) && (s.tooDeep <==> Bottom in visits[..n])
    && (forall k :: 0 <= k < n ==> |Recorded(visits[..k])| < 20_000)
    && |s.files| <= 20_000
    && (s.truncated <==> n < |visits|)
    && (s.truncated ==> |s.files| == 20_000)
  }

  lemma StoppedStays(init: seq<Visit>, v: Visit, s: Scanned, n: nat)
    requires StoppedAfter(init, s, n) && s.truncated
    ensures StoppedAfter(init + [v], s, n)
  {
    assert forall k :: 0 <= k <= |init| ==> (init + [v])[..k] == init[..k];
  }

  lemma VisitsGoOn(init: seq<Visit>, v: Visit, s: Scanned)
    requires StoppedAfter(init, s, |init|)
    ensures StoppedAfter(init + [v], Take(s, v), if |s.files| >= MAX_ENTRIES then |init| else |init| + 1)
  {
    var visits := init + [v];
    assert forall k :: 0 <= k <= |init| ==> visits[..k] == init[..k];
    assert init[..|init|] == init && visits[..|init| + 1] == visits;
  }

  /** Every scan stops somewhere, and holds the first files in the order of the walk. */
  lemma {:induction false} TheFirstFilesAreHeld(visits: seq<Visit>) returns (n: nat)
    ensures StoppedAfter(visits, TakeAll(NOTHING, visits), n)
    decreases |visits|
  {
    if visits == [] {
      n := 0;
      assert visits[..0] == [];
    } else {
      var init, last := visits[..|visits| - 1], visits[|visits| - 1];
      var s := TakeAll(NOTHING, init);
      assert visits == init + [last];
      n := TheFirstFilesAreHeld(init);
      TakeBoth(NOTHING, init, [last]);
      if s.truncated {
        StoppedStays(init, last, s, n);
      } else {
        VisitsGoOn(init, last, s);
        n := if |s.files| >= MAX_ENTRIES then |init| else |init| + 1;
      }
    }
  }

  /** A scan is cut short exactly when the visits before the last one already record as many files as are allowed. */
  lemma CutShortExactlyWhen(visits: seq<Visit>)
    ensures TakeAll(NOTHING, visits).truncated <==>
              visits != [] && |Recorded(visits[..|visits| - 1])| >= 20_000
  {
    var n := TheFirstFilesAreHeld(visits);
    if n < |visits| {
      var init := visits[..|visits| - 1];
      assert init[..n] == visits[..n];
      RecordedGrows(init, n);
    }
  }

  lemma SameSizeMeansEqual(part: set<Path>, whole: set<Path>)
    requires part <= whole && |whole| <= |part|
    ensures part == whole
  {
    assert whole == part + (whole - part);
    assert |whole| == |part| + |whole - part|;
  }

  /** It misses a file exactly when there are more of them than are allowed. */
  lemma NothingIsMissedExactlyWhen(visits: seq<Visit>)
    ensures TakeAll(NOTHING, visits).files.Keys == Recorded(visits).Keys <==> |Recorded(visits)| <= 20_000
  {
    var n := TheFirstFilesAreHeld(visits);
    var files, all := TakeAll(NOTHING, visits).files, Recorded(visits);
    RecordedGrows(visits, n);
    assert |files| == |files.Keys| && |all| == |all.Keys|;
    if n == |visits| {
      assert visits[..n] == visits;
    } else if |all| <= MAX_ENTRIES {
      SameSizeMeansEqual(files.Keys, all.Keys);
    }
  }

  // ── The visits record what is to be found ─────────────────────────────────

  lemma {:induction false} RecordedBoth(a: seq<Visit>, b: seq<Visit>)
    ensures Recorded(a + b) == Recorded(a) + Recorded(b)
    decreases |b|
  {
    if b == [] {
      assert a + b == a;
    } else {
      var init, last := b[..|b| - 1], b[|b| - 1];
      RecordedBoth(a, init);
      assert (a + b)[..|a + b| - 1] == a + init;
    }
  }

  lemma RecordedOne(v: Visit)
    ensures Recorded([v]) == if v.Record? then map[v.path := v.stamp] else map[]
  {
    assert [] + [v] == [v];
  }

  lemma {:induction false} VisitsRecordTheFound(ignored: Path -> bool, root: Path, relative: Path, node: Node)
    ensures Recorded(Visits(ignored, root, relative, node)) == Found(ignored, root, relative, node)
    ensures Bottom in Visits(ignored, root, relative, node) <==> TooDeep(ignored, relative, node)
    decreases node, Width(node) + 1
  {
    RecordedOne(Pass);
    RecordedOne(Bottom);
    if node.Dir? && !Skipped(ignored, relative) && |relative| < MAX_DEPTH {
      AmongRecordTheFound(ignored, root, relative, node, |node.entries|);
      RecordedBoth([Pass], VisitsAmong(ignored, root, relative, node, |node.entries|));
    } else if node.File? && !Skipped(ignored, relative) {
      RecordedOne(Record(root + relative, node.stamp));
    }
  }

  lemma {:induction false} AmongRecordTheFound(ignored: Path -> bool, root: Path, relative: Path, dir: Node, k: nat)
    requires dir.Dir? && k <= |dir.entries|
    ensures Recorded(VisitsAmong(ignored, root, relative, dir, k)) == FoundAmong(ignored, root, relative, dir, k)
    ensures Bottom in VisitsAmong(ignored, root, relative, dir, k) <==> TooDeepAmong(ignored, relative, dir, k)
    decreases dir, k
  {
    if k > 0 {
      var child := dir.entries[k - 1];
      AmongRecordTheFound(ignored, root, relative, dir, k - 1);
      var before, last := VisitsAmong(ignored, root, relative, dir, k - 1),
                          Visits(ignored, root, relative + [child.name], child.node);
      VisitsRecordTheFound(ignored, root, relative + [child.name], child.node);
      RecordedBoth(before, last);
      assert VisitsAmong(ignored, root, relative, dir, k) == before + last;
    }
  }

  lemma {:induction false} RootsRecordTheFound(ignored: Path -> bool, roots: seq<Root>)
    ensures Recorded(VisitsInRoots(ignored, roots)) == FoundInRoots(ignored, roots)
    ensures Bottom in VisitsInRoots(ignored, roots) <==> TooDeepInRoots(ignored, roots)
  {
    if roots != [] {
      var before, last := roots[..|roots| - 1], roots[|roots| - 1];
      RootsRecordTheFound(ignored, before);
      VisitsRecordTheFound(ignored, last.path, [], last.node);
      RecordedBoth(VisitsInRoots(ignored, before), Visits(ignored, last.path, [], last.node));
    }
  }

  /** What a whole scan gives. */
  function ScanOf(ignored: Path -> bool, roots: seq<Root>): Scanned {
    TakeAll(NOTHING, VisitsInRoots(ignored, roots))
  }

  /**
   A scan that does not say it was cut short is complete; one that does holds
   exactly the limit, the first files of the walk with their stamps; and it is
   in want of a file exactly when there are more than the limit.
   */
  lemma AScanIsCompleteOrFull(ignored: Path -> bool, roots: seq<Root>) returns (n: nat)
    ensures
      var s, all := ScanOf(ignored, roots), FoundInRoots(ignored, roots);
      && StoppedAfter(VisitsInRoots(ignored, roots), s, n)
      && (!s.truncated ==> s.files == all && s.tooDeep == TooDeepInRoots(ignored, roots))
      && (s.truncated ==> |s.files| == 20_000)
      && (s.files.Keys == all.Keys <==> |all| <= 20_000)
  {
    var visits := VisitsInRoots(ignored, roots);
    n := TheFirstFilesAreHeld(visits);
    NothingIsMissedExactlyWhen(visits);
    RootsRecordTheFound(ignored, roots);
    assert visits[..|visits|] == visits;
  }

  // ── A complete scan that says it was cut short ────────────────────────────

  /** A directory of as many files as the limit allows, and one entry after them. */
  function Numbered(n: nat, stamp: FileStamp): (entries: seq<Entry>)
    ensures |entries| == n && forall i :: 0 <= i < n ==> entries[i] == Entry(i, File(stamp))
  {
    if n == 0 then [] else Numbered(n - 1, stamp) + [Entry(n - 1, File(stamp))]
  }

  predicate IsNumbered(dir: Node, n: nat, stamp: FileStamp) {
    dir.Dir? && n <= |dir.entries| && forall i :: 0 <= i < n ==> dir.entries[i] == Entry(i, File(stamp))
  }

  function NumberedFiles(n: nat, stamp: FileStamp): Files {
    if n == 0 then map[] else NumberedFiles(n - 1, stamp)[[n - 1] := stamp]
  }

  lemma {:induction false} NumberedFilesAreMany(n: nat, stamp: FileStamp)
    ensures |NumberedFiles(n, stamp)| == n
    ensures forall p <- NumberedFiles(n, stamp) :: |p| == 1 && p[0] < n
  {
    if n > 0 {
      NumberedFilesAreMany(n - 1, stamp);
    }
  }

  lemma OneNumberedMore(ignored: Path -> bool, dir: Node, stamp: FileStamp, k: nat)
    requires dir.Dir? && k < |dir.entries| && dir.entries[k] == Entry(k, File(stamp)) && !ignored([k])
    ensures FoundAmong(ignored, [], [], dir, k + 1) == FoundAmong(ignored, [], [], dir, k)[[k] := stamp]
  {
    assert [] + [k] == [k];
    assert Found(ignored, [], [k], File(stamp)) == map[[k] := stamp];
  }

  lemma {:induction false} NumberedFilesAreFound(ignored: Path -> bool, dir: Node, n: nat, stamp: FileStamp, k: nat)
    requires k <= n && IsNumbered(dir, n, stamp)
    requires forall i :: 0 <= i < n ==> !ignored([i])
    ensures FoundAmong(ignored, [], [], dir, k) == NumberedFiles(k, stamp)
    decreases k
  {
    if k > 0 {
      NumberedFilesAreFound(ignored, dir, n, stamp, k - 1);
      OneNumberedMore(ignored, dir, stamp, k - 1);
    }
  }

  /**
   Twenty thousand files and then one ignored entry: every file is recorded,
   and the scan says that it was cut short all the same.
   */
  lemma ACompleteScanCanSayItWasCut(stamp: FileStamp)
    ensures
      var dir := Dir(Numbered(20_000, stamp) + [Entry(20_000, File(stamp))]);
      var ignored, roots := (p: Path) => p == [20_000], [Root([], dir)];
      var s := ScanOf(ignored, roots);
      && WellFormed(dir)
      && s.truncated && s.files.Keys == FoundInRoots(ignored, roots).Keys
  {
    var dir := Dir(Numbered(MAX_ENTRIES, stamp) + [Entry(MAX_ENTRIES, File(stamp))]);
    var ignored, roots := (p: Path) => p == [MAX_ENTRIES], [Root([], dir)];
    IgnoredLast(ignored, dir, stamp);
    var visits := VisitsInRoots(ignored, roots);
    assert roots[..0] == [] && VisitsInRoots(ignored, []) == [];
    assert visits == Visits(ignored, [], [], dir);
    RootsRecordTheFound(ignored, roots);
    CutShortExactlyWhen(visits);
    NothingIsMissedExactlyWhen(visits);
  }

  lemma IgnoredLast(ignored: Path -> bool, dir: Node, stamp: FileStamp)
    requires IsNumbered(dir, MAX_ENTRIES, stamp) && |dir.entries| == MAX_ENTRIES + 1
    requires dir.entries[MAX_ENTRIES].name == MAX_ENTRIES
    requires forall p :: ignored(p) <==> p == [MAX_ENTRIES]
    ensures
      var visits := Visits(ignored, [], [], dir);
      && visits != [] && |Recorded(visits[..|visits| - 1])| == MAX_ENTRIES == |Recorded(visits)|
  {
    var among, visits := VisitsAmong(ignored, [], [], dir, MAX_ENTRIES), Visits(ignored, [], [], dir);
    LastVisitPasses(ignored, dir);
    NumberedFilesAreFound(ignored, dir, MAX_ENTRIES, stamp, MAX_ENTRIES);
    NumberedFilesAreMany(MAX_ENTRIES, stamp);
    AmongRecordTheFound(ignored, [], [], dir, MAX_ENTRIES);
    PassesRecordNothing(among);
    assert visits[..|visits| - 1] == [Pass] + among;
  }

  lemma LastVisitPasses(ignored: Path -> bool, dir: Node)
    requires dir.Dir? && |dir.entries| == MAX_ENTRIES + 1 && dir.entries[MAX_ENTRIES].name == MAX_ENTRIES
    requires ignored([MAX_ENTRIES])
    ensures Visits(ignored, [], [], dir) == [Pass] + VisitsAmong(ignored, [], [], dir, MAX_ENTRIES) + [Pass]
  {
    assert [] + [MAX_ENTRIES] == [MAX_ENTRIES];
    assert VisitsAmong(ignored, [], [], dir, MAX_ENTRIES + 1)
        == VisitsAmong(ignored, [], [], dir, MAX_ENTRIES) + [Pass];
  }

  lemma PassesRecordNothing(visits: seq<Visit>)
    ensures Recorded([Pass] + visits) == Recorded(visits) == Recorded([Pass] + visits + [Pass])
  {
    RecordedOne(Pass);
    RecordedBoth([Pass], visits);
    RecordedBoth([Pass] + visits, [Pass]);
  }

  // ── What a complete scan has recorded ─────────────────────────────────────

  /** Neither the node nor a directory above it and below the root is ignored. */
  ghost predicate Open(ignored: Path -> bool, above: Path, below: Path) {
    forall i :: 0 <= i <= |below| ==> above + below[..i] == [] || !ignored(above + below[..i])
  }

  /** A file the scan is meant to see. */
  ghost predicate Visible(ignored: Path -> bool, above: Path, node: Node, below: Path) {
    var at := Lookup(node, below);
    at.Some? && at.value.File? && |above| + |below| <= 64 && Open(ignored, above, below)
  }

  /** A directory the scan reaches but does not descend into. */
  ghost predicate Deep(ignored: Path -> bool, above: Path, node: Node, below: Path) {
    var at := Lookup(node, below);
    at.Some? && at.value.Dir? && |above| + |below| == 64 && Open(ignored, above, below)
  }

  lemma OpenStep(ignored: Path -> bool, above: Path, below: Path)
    requires below != []
    ensures Open(ignored, above, below) <==>
              !Skipped(ignored, above) && Open(ignored, above + [below[0]], below[1..])
  {
    var next, rest := above + [below[0]], below[1..];
    assert above + below[..0] == above;
    forall i | 0 <= i <= |rest| ensures next + rest[..i] == above + below[..i + 1] {
    }
    assert forall i :: 1 <= i <= |below| ==> above + below[..i] == next + rest[..i - 1];
  }

  lemma {:induction false} FoundIsBelow(ignored: Path -> bool, root: Path, relative: Path, node: Node)
    ensures forall p <- Found(ignored, root, relative, node) :: root + relative <= p
    decreases node, Width(node) + 1
  {
    if node.Dir? && |relative| < MAX_DEPTH && !Skipped(ignored, relative) {
      AmongIsBelow(ignored, root, relative, node, |node.entries|);
    }
  }

  predicate Under(p: Path, above: Path, entries: seq<Entry>, k: nat)
    requires k <= |entries|
  {
    |p| > |above| && above <= p && exists j :: 0 <= j < k && entries[j].name == p[|above|]
  }

  lemma {:induction false} AmongIsBelow(ignored: Path -> bool, root: Path, relative: Path, dir: Node, k: nat)
    requires dir.Dir? && k <= |dir.entries|
    ensures forall p <- FoundAmong(ignored, root, relative, dir, k) :: Under(p, root + relative, dir.entries, k)
    decreases dir, k
  {
    if k > 0 {
      var last := dir.entries[k - 1];
      AmongIsBelow(ignored, root, relative, dir, k - 1);
      FoundIsBelow(ignored, root, relative + [last.name], last.node);
      assert root + (relative + [last.name]) == root + relative + [last.name];
    }
  }

  /** Among distinct names only one entry can hold a path. */
  lemma {:induction false} AmongIsTheEntry(
      ignored: Path -> bool, root: Path, relative: Path, dir: Node, k: nat, p: Path, j: nat)
    requires dir.Dir? && j < k <= |dir.entries| && Distinct(dir.entries)
    requires |p| > |root + relative| && p[|root + relative|] == dir.entries[j].name
    ensures
      var child := Found(ignored, root, relative + [dir.entries[j].name], dir.entries[j].node);
      Get(FoundAmong(ignored, root, relative, dir, k), p) == Get(child, p)
    decreases k
  {
    var last := dir.entries[k - 1];
    AmongIsBelow(ignored, root, relative, dir, k - 1);
    if j < k - 1 {
      AmongIsTheEntry(ignored, root, relative, dir, k - 1, p, j);
      FoundIsBelow(ignored, root, relative + [last.name], last.node);
      assert (root + (relative + [last.name]))[|root + relative|] == last.name;
    }
  }

  function Get(files: Files, p: Path): Option<FileStamp> {
    if p in files then Some(files[p]) else None
  }

  function StampAt(node: Node, below: Path): Option<FileStamp> {
    var at := Lookup(node, below);
    if at.Some? && at.value.File? then Some(at.value.stamp) else None
  }

  /** Below one node exactly the visible files are found, with their stamps. */
  lemma {:induction false} FoundIsWhatIsVisible(
      ignored: Path -> bool, root: Path, relative: Path, node: Node, below: Path)
    requires WellFormed(node) && |relative| <= MAX_DEPTH
    ensures Get(Found(ignored, root, relative, node), root + relative + below) ==
              if Visible(ignored, relative, node, below) then StampAt(node, below) else None
    decreases |below|
  {
    var p := root + relative + below;
    assert relative + below[..0] == relative;
    if Skipped(ignored, relative) {
      assert !Open(ignored, relative, below);
    } else if node.Dir? && |relative| < MAX_DEPTH {
      AmongIsBelow(ignored, root, relative, node, |node.entries|);
      if below != [] {
        var at := Find(node.entries, below[0]);
        if at.Some? {
          var child := node.entries[at.value];
          assert p == root + (relative + [child.name]) + below[1..];
          AmongIsTheEntry(ignored, root, relative, node, |node.entries|, p, at.value);
          FoundIsWhatIsVisible(ignored, root, relative + [child.name], child.node, below[1..]);
          OpenStep(ignored, relative, below);
        }
      }
    } else if below == [] {
      assert p == root + relative;
    }
  }

  lemma {:induction false} DeepIsTooDeep(ignored: Path -> bool, relative: Path, node: Node, below: Path)
    requires Deep(ignored, relative, node, below)
    ensures TooDeep(ignored, relative, node)
    decreases |below|
  {
    assert relative + below[..0] == relative;
    if below != [] {
      var k := Find(node.entries, below[0]).value;
      OpenStep(ignored, relative, below);
      DeepIsTooDeep(ignored, relative + [below[0]], node.entries[k].node, below[1..]);
      AmongHas(ignored, relative, node, k, |node.entries|);
    }
  }

  lemma {:induction false} AmongHas(ignored: Path -> bool, relative: Path, dir: Node, j: nat, k: nat)
    requires dir.Dir? && j < k <= |dir.entries|
    requires TooDeep(ignored, relative + [dir.entries[j].name], dir.entries[j].node)
    ensures TooDeepAmong(ignored, relative, dir, k)
    decreases k
  {
    if j < k - 1 {
      AmongHas(ignored, relative, dir, j, k - 1);
    }
  }

  lemma {:induction false} TooDeepHasADeep(ignored: Path -> bool, relative: Path, node: Node) returns (below: Path)
    requires WellFormed(node) && TooDeep(ignored, relative, node) && |relative| <= MAX_DEPTH
    ensures Deep(ignored, relative, node, below)
    decreases node, Width(node) + 1
  {
    assert relative + [] == relative;
    if |relative| == MAX_DEPTH {
      below := [];
      assert below[..0] == [];
    } else {
      below := AmongHasADeep(ignored, relative, node, |node.entries|);
    }
  }

  lemma {:induction false} AmongHasADeep(ignored: Path -> bool, relative: Path, dir: Node, k: nat) returns (below: Path)
    requires dir.Dir? && k <= |dir.entries| && WellFormed(dir) && !Skipped(ignored, relative)
    requires TooDeepAmong(ignored, relative, dir, k) && |relative| < MAX_DEPTH
    ensures Deep(ignored, relative, dir, below)
    decreases dir, k
  {
    var last := dir.entries[k - 1];
    if TooDeepAmong(ignored, relative, dir, k - 1) {
      below := AmongHasADeep(ignored, relative, dir, k - 1);
    } else {
      var rest := TooDeepHasADeep(ignored, relative + [last.name], last.node);
      below := [last.name] + rest;
      assert below[0] == last.name && below[1..] == rest;
      OpenStep(ignored, relative, below);
    }
  }

  // ── Several roots ─────────────────────────────────────────────────────────

  /** A path that a root leads to as a file the scan is meant to see. */
  ghost predicate SeenFrom(ignored: Path -> bool, root: Root, p: Path) {
    root.path <= p && Visible(ignored, [], root.node, p[|root.path|..])
  }

  ghost predicate AllWellFormed(roots: seq<Root>) {
    forall i :: 0 <= i < |roots| ==> WellFormed(roots[i].node)
  }

  lemma OneRoot(ignored: Path -> bool, root: Root, p: Path)
    requires WellFormed(root.node)
    ensures Get(Found(ignored, root.path, [], root.node), p) ==
              if SeenFrom(ignored, root, p) then StampAt(root.node, p[|root.path|..]) else None
  {
    if root.path <= p {
      assert p == root.path + [] + p[|root.path|..];
      FoundIsWhatIsVisible(ignored, root.path, [], root.node, p[|root.path|..]);
    } else {
      FoundIsBelow(ignored, root.path, [], root.node);
      assert root.path + [] == root.path;
    }
  }

  /** The last root that leads to a path as a visible file. */
  ghost predicate LastSeenFrom(ignored: Path -> bool, roots: seq<Root>, i: nat, p: Path) {
    i < |roots| && SeenFrom(ignored, roots[i], p) && forall j :: i < j < |roots| ==> !SeenFrom(ignored, roots[j], p)
  }

  ghost predicate SeenFromNone(ignored: Path -> bool, roots: seq<Root>, p: Path) {
    forall i :: 0 <= i < |roots| ==> !SeenFrom(ignored, roots[i], p)
  }

  lemma {:induction false} FoundUnlessSeenFromNone(ignored: Path -> bool, roots: seq<Root>, p: Path)
    requires AllWellFormed(roots)
    ensures Get(FoundInRoots(ignored, roots), p).None? <==> SeenFromNone(ignored, roots, p)
  {
    if roots != [] {
      var before, last := roots[..|roots| - 1], roots[|roots| - 1];
      FoundUnlessSeenFromNone(ignored, before, p);
      OneRoot(ignored, last, p);
      assert SeenFromNone(ignored, roots, p) <==> SeenFromNone(ignored, before, p) && !SeenFrom(ignored, last, p);
    }
  }

  lemma {:induction false} FoundAsLastSeen(ignored: Path -> bool, roots: seq<Root>, p: Path, i: nat)
    requires AllWellFormed(roots) && LastSeenFrom(ignored, roots, i, p)
    ensures Get(FoundInRoots(ignored, roots), p) == StampAt(roots[i].node, p[|roots[i].path|..])
  {
    OneRoot(ignored, roots[|roots| - 1], p);
    if !SeenFrom(ignored, roots[|roots| - 1], p) {
      FoundAsLastSeen(ignored, roots[..|roots| - 1], p, i);
    }
  }

  /** What is found is what some root shows, with the stamp that the last such root showed. */
  lemma FoundIsExact(ignored: Path -> bool, roots: seq<Root>, p: Path)
    requires AllWellFormed(roots)
    ensures Get(FoundInRoots(ignored, roots), p).None? <==> SeenFromNone(ignored, roots, p)
    ensures forall i: nat :: LastSeenFrom(ignored, roots, i, p) ==>
              Get(FoundInRoots(ignored, roots), p) == StampAt(roots[i].node, p[|roots[i].path|..])
  {
    FoundUnlessSeenFromNone(ignored, roots, p);
    forall i: nat | LastSeenFrom(ignored, roots, i, p)
      ensures Get(FoundInRoots(ignored, roots), p) == StampAt(roots[i].node, p[|roots[i].path|..])
    {
      FoundAsLastSeen(ignored, roots, p, i);
    }
  }

  /**
   A scan that was not cut short has recorded exactly the files that are at
   most 64 levels below a root, with nothing ignored on the way, each with the
   stamp that the last root leading to it showed.
   */
  lemma ACompleteScanIsExact(ignored: Path -> bool, roots: seq<Root>, p: Path)
    requires AllWellFormed(roots) && !ScanOf(ignored, roots).truncated
    ensures Get(ScanOf(ignored, roots).files, p).None? <==> SeenFromNone(ignored, roots, p)
    ensures forall i: nat :: LastSeenFrom(ignored, roots, i, p) ==>
              Get(ScanOf(ignored, roots).files, p) == StampAt(roots[i].node, p[|roots[i].path|..])
  {
    var _ := AScanIsCompleteOrFull(ignored, roots);
    FoundIsExact(ignored, roots, p);
  }

  ghost predicate SomethingDeep(ignored: Path -> bool, roots: seq<Root>) {
    exists i, below :: 0 <= i < |roots| && Deep(ignored, [], roots[i].node, below)
  }

  lemma {:induction false} DeepInRoots(ignored: Path -> bool, roots: seq<Root>)
    requires AllWellFormed(roots)
    ensures TooDeepInRoots(ignored, roots) <==> SomethingDeep(ignored, roots)
  {
    if roots != [] {
      var before, last := roots[..|roots| - 1], roots[|roots| - 1];
      DeepInRoots(ignored, before);
      if TooDeep(ignored, [], last.node) {
        var below := TooDeepHasADeep(ignored, [], last.node);
        assert Deep(ignored, [], roots[|roots| - 1].node, below);
      } else {
        forall below ensures !Deep(ignored, [], last.node, below) {
          if Deep(ignored, [], last.node, below) {
            DeepIsTooDeep(ignored, [], last.node, below);
          }
        }
      }
      assert forall i :: 0 <= i < |before| ==> before[i] == roots[i];
    }
  }

  /** It says that it stopped at a depth exactly when a directory 64 levels below a root was reached. */
  lemma TooDeepIsExact(ignored: Path -> bool, roots: seq<Root>)
    requires AllWellFormed(roots) && !ScanOf(ignored, roots).truncated
    ensures ScanOf(ignored, roots).tooDeep <==>
              exists i, below :: 0 <= i < |roots| && Deep(ignored, [], roots[i].node, below)
  {
    var _ := AScanIsCompleteOrFull(ignored, roots);
    DeepInRoots(ignored, roots);
  }

  // ── The order of the walk ─────────────────────────────────────────────────

  /** Paths are ordered component by component. */
  predicate Before(a: Path, b: Path)
    decreases |b|
  {
    b != [] && (a == [] || a[0] < b[0] || (a[0] == b[0] && Before(a[1..], b[1..])))
  }

  lemma {:induction false} BeforeAt(a: Path, b: Path, at: nat)
    requires at < |a| && at < |b| && a[..at] == b[..at] && a[at] < b[at]
    ensures Before(a, b)
  {
    if at > 0 {
      assert a[0] == a[..at][0] == b[..at][0] == b[0];
      assert a[1..][..at - 1] == a[..at][1..] == b[..at][1..] == b[1..][..at - 1];
      BeforeAt(a[1..], b[1..], at - 1);
    }
  }

  /** Directories list their entries in the order of their names, all the way down. */
  ghost predicate InNameOrder(node: Node) {
    node.Dir? ==>
      && (forall i, j :: 0 <= i < j < |node.entries| ==> node.entries[i].name < node.entries[j].name)
      && forall i :: 0 <= i < |node.entries| ==> InNameOrder(node.entries[i].node)
  }

  ghost predicate RecordsAscend(visits: seq<Visit>) {
    forall i, j :: 0 <= i < j < |visits| && visits[i].Record? && visits[j].Record? ==>
      Before(visits[i].path, visits[j].path)
  }

  ghost predicate RecordsUnder(visits: seq<Visit>, at: Path) {
    forall v <- visits :: v.Record? ==> at <= v.path
  }

  /** Everything recorded is in a directory, under a name less than the bound. */
  ghost predicate RecordsBelow(visits: seq<Visit>, at: Path, bound: Name) {
    forall v <- visits :: v.Record? ==> at < v.path && v.path[|at|] < bound
  }

  lemma AscendingParts(a: seq<Visit>, b: seq<Visit>, at: Path, name: Name)
    requires RecordsAscend(a) && RecordsAscend(b)
    requires RecordsBelow(a, at, name) && RecordsUnder(b, at + [name])
    ensures RecordsAscend(a + b)
  {
    forall i, j | 0 <= i < |a| && 0 <= j < |b| && a[i].Record? && b[j].Record?
      ensures Before(a[i].path, b[j].path)
    {
      var p, q := a[i].path, b[j].path;
      assert a[i] in a && b[j] in b;
      assert at == p[..|at|] && at + [name] == q[..|at| + 1];
      assert q[..|at|] == q[..|at| + 1][..|at|] == at && q[|at|] == q[..|at| + 1][|at|] == name;
      BeforeAt(p, q, |at|);
    }
  }

  lemma UnderIsBelow(visits: seq<Visit>, at: Path, name: Name, bound: Name)
    requires RecordsUnder(visits, at + [name]) && name < bound
    ensures RecordsBelow(visits, at, bound)
  {
    forall v | v in visits && v.Record? ensures at < v.path && v.path[|at|] < bound {
      assert at + [name] == v.path[..|at| + 1];
      assert v.path[..|at|] == v.path[..|at| + 1][..|at|] == at && v.path[|at|] == v.path[..|at| + 1][|at|];
    }
  }

  lemma {:induction false} VisitsAscend(ignored: Path -> bool, root: Path, relative: Path, node: Node)
    requires InNameOrder(node)
    ensures
      var visits := Visits(ignored, root, relative, node);
      RecordsAscend(visits) && RecordsUnder(visits, root + relative)
    decreases node, Width(node) + 1
  {
    if node.Dir? && !Skipped(ignored, relative) && |relative| < MAX_DEPTH {
      var among := VisitsAmong(ignored, root, relative, node, |node.entries|);
      AmongAscend(ignored, root, relative, node, |node.entries|);
      assert RecordsUnder(among, root + relative);
      assert RecordsAscend([Pass] + among);
    }
  }

  lemma {:induction false} AmongAscend(ignored: Path -> bool, root: Path, relative: Path, dir: Node, k: nat)
    requires dir.Dir? && InNameOrder(dir) && k <= |dir.entries|
    ensures
      var visits := VisitsAmong(ignored, root, relative, dir, k);
      && RecordsAscend(visits) && RecordsUnder(visits, root + relative)
      && forall bound: Name :: (forall i :: 0 <= i < k ==> dir.entries[i].name < bound) ==>
           RecordsBelow(visits, root + relative, bound)
    decreases dir, k
  {
    if k > 0 {
      var e := dir.entries[k - 1];
      var before := VisitsAmong(ignored, root, relative, dir, k - 1);
      var last := Visits(ignored, root, relative + [e.name], e.node);
      AmongAscend(ignored, root, relative, dir, k - 1);
      VisitsAscend(ignored, root, relative + [e.name], e.node);
      assert root + (relative + [e.name]) == root + relative + [e.name];
      assert RecordsBelow(before, root + relative, e.name);
      AscendingParts(before, last, root + relative, e.name);
      forall bound: Name | forall i :: 0 <= i < k ==> dir.entries[i].name < bound
        ensures RecordsBelow(before + last, root + relative, bound)
      {
        UnderIsBelow(last, root + relative, e.name, bound);
      }
      UnderParts(before, last, root + relative, e.name);
    }
  }

  lemma UnderParts(a: seq<Visit>, b: seq<Visit>, at: Path, name: Name)
    requires RecordsUnder(a, at) && RecordsUnder(b, at + [name])
    ensures RecordsUnder(a + b, at)
  {
    UnderIsBelow(b, at, name, name + 1);
  }

  lemma {:induction false} RecordedSomewhere(visits: seq<Visit>, p: Path) returns (i: nat)
    requires p in Recorded(visits)
    ensures i < |visits| && visits[i].Record? && visits[i].path == p
  {
    var last := visits[|visits| - 1];
    if last.Record? && last.path == p {
      i := |visits| - 1;
    } else {
      i := RecordedSomewhere(visits[..|visits| - 1], p);
    }
  }

  lemma {:induction false} RecordsAreRecorded(visits: seq<Visit>, i: nat)
    requires i < |visits| && visits[i].Record?
    ensures visits[i].path in Recorded(visits)
  {
    if i < |visits| - 1 {
      RecordsAreRecorded(visits[..|visits| - 1], i);
    }
  }

  /**
   What a scan of one root leaves out, when it is cut short, is what comes last:
   every file it holds is before every one it does not, in the order of paths.
   */
  lemma TheLeastFilesAreHeld(ignored: Path -> bool, root: Root, p: Path, q: Path)
    requires InNameOrder(root.node)
    requires p in ScanOf(ignored, [root]).files
    requires q in FoundInRoots(ignored, [root]) && q !in ScanOf(ignored, [root]).files
    ensures Before(p, q)
  {
    var visits := VisitsInRoots(ignored, [root]);
    var n := AScanIsCompleteOrFull(ignored, [root]);
    RootsRecordTheFound(ignored, [root]);
    assert [root][..0] == [];
    assert visits == [] + Visits(ignored, root.path, [], root.node);
    VisitsAscend(ignored, root.path, [], root.node);
    var i := RecordedSomewhere(visits[..n], p);
    var j := RecordedSomewhere(visits, q);
    if j < n {
      RecordsAreRecorded(visits[..n], j);
    }
    assert visits[i].path == p && visits[j].path == q;
  }
}
