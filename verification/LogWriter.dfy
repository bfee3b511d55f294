/** The writer of rotating log files, one service's files seen as a whole. */
module LogWriter {
  import opened Prelude

  newtype Byte = x: int | 0 <= x < 256

  type Bytes = seq<Byte>

  const NEWLINE: Byte := 10

  const FLUSH_EVERY_LINES := 256

  // ── What the log holds ────────────────────────────────────────────────────

  /**
   `older[i]` is the file rotated away `i + 1` rotations ago, and `current` the
   file being written, what is still buffered included.  The first `safe` bytes
   of `current` are on disk for certain.
   */
  datatype Log = Log(older: seq<Option<Bytes>>, current: Bytes, safe: nat, unflushed: nat)

  /** Everything moves one place on; what was in the last place falls out. */
  function Shift<T>(older: seq<Option<T>>, newest: T): (r: seq<Option<T>>)
    ensures |r| == |older|
  {
    if older == [] then [] else [Some(newest)] + older[..|older| - 1]
  }

  function Flushed(log: Log): Log {
    log.(safe := |log.current|, unflushed := 0)
  }

  function Rotated(log: Log): Log {
    Log(Shift(log.older, log.current), [], 0, 0)
  }

  predicate MustRotate(current: Bytes, maxSize: nat, line: Bytes) {
    |current| > 0 && |current| + |line| + 1 > maxSize
  }

  function Appended(log: Log, line: Bytes): Log {
    log.(current := log.current + (line + [NEWLINE]), unflushed := log.unflushed + 1)
  }

  function Written(log: Log, maxSize: nat, line: Bytes): Log {
    var longer := Appended(if MustRotate(log.current, maxSize, line) then Rotated(log) else log, line);
    if longer.unflushed >= FLUSH_EVERY_LINES then Flushed(longer) else longer
  }

  datatype Op = Write(line: Bytes) | Flush

  function Step(log: Log, maxSize: nat, op: Op): Log {
    match op
    case Write(line) => Written(log, maxSize, line)
    case Flush => Flushed(log)
  }

  function Run(log: Log, maxSize: nat, ops: seq<Op>): Log {
    if ops == [] then log else Step(Run(log, maxSize, ops[..|ops| - 1]), maxSize, ops[|ops| - 1])
  }

  // ── The files ─────────────────────────────────────────────────────────────

  /** File 0 is the log's own path; file n is the path with `.n` at its end. */
  type Files = map<nat, Bytes>

  function Slot(files: Files, n: nat): Option<Bytes> {
    if n in files then Some(files[n]) else None
  }

  function Slots(files: Files, n: nat, last: nat): (r: seq<Option<Bytes>>)
    ensures |r| == if n > last then 0 else last - n + 1
    decreases last + 1 - n
  {
    if n > last then [] else [Slot(files, n)] + Slots(files, n + 1, last)
  }

  lemma {:induction false} SlotAt(files: Files, n: nat, last: nat, i: nat)
    requires n + i <= last
    ensures Slots(files, n, last)[i] == Slot(files, n + i)
    decreases i
  {
    if i > 0 {
      SlotAt(files, n + 1, last, i - 1);
    }
  }

  ghost predicate SameSlots(a: Files, b: Files, lo: nat, hi: nat) {
    forall i: nat :: lo <= i < hi ==> Slot(a, i) == Slot(b, i)
  }

  ghost predicate SameBeyond(a: Files, b: Files, n: nat) {
    forall i: nat :: i > n ==> Slot(a, i) == Slot(b, i)
  }

  /** In `a`, each slot from `lo + 1` to `last` holds what the slot before it holds in `b`. */
  ghost predicate Moved(a: Files, b: Files, lo: nat, last: nat) {
    forall i: nat :: lo < i <= last ==> Slot(a, i) == Slot(b, i - 1)
  }

  lemma {:induction false} EqualSlots(a: Files, b: Files, n: nat, last: nat)
    requires SameSlots(a, b, n, last + 1)
    ensures Slots(a, n, last) == Slots(b, n, last)
    decreases last + 1 - n
  {
    if n <= last {
      EqualSlots(a, b, n + 1, last);
    }
  }

  lemma MovedSlots(a: Files, b: Files, last: nat, newest: Bytes)
    requires 1 <= last && Moved(a, b, 1, last) && Slot(a, 1) == Some(newest)
    ensures Slots(a, 1, last) == Shift(Slots(b, 1, last), newest)
  {
    var before, after := Slots(b, 1, last), Slots(a, 1, last);
    forall i: nat | i < last ensures after[i] == Shift(before, newest)[i] {
      SlotAt(a, 1, last, i);
      if i > 0 {
        SlotAt(b, 1, last, i - 1);
      }
    }
  }

  // ── The code ──────────────────────────────────────────────────────────────

  class Writer {
    var files: Files
    var buffer: Bytes
    var size: nat
    var unflushed: nat
    const maxSize: nat
    const maxFiles: nat
    /** How much of the current file was on disk at the last flush. */
    ghost var safe: nat

    ghost predicate Valid()
      reads this
    {
      0 in files && size == |files[0]| + |buffer| && safe <= |files[0]| && unflushed < FLUSH_EVERY_LINES
    }

    ghost function View(): Log
      reads this
      requires Valid()
    {
      Log(Slots(files, 1, maxFiles), files[0] + buffer, safe, unflushed)
    }

    /** A writer over the files that are there. */
    constructor (files: Files, maxSize: nat, maxFiles: nat)
      ensures Valid() && this.maxSize == maxSize && this.maxFiles == maxFiles
      ensures View() == Opened(files, maxFiles)
      ensures SameBeyond(this.files, files, maxFiles)
      ensures this.files == if 0 in files then files else files[0 := []]
    {
      var path := if 0 in files then files[0] else [];
      this.files := files[0 := path];
      this.buffer := [];
      this.size := |path|;
      this.unflushed := 0;
      this.maxSize := maxSize;
      this.maxFiles := maxFiles;
      this.safe := |path|;
      new;
      EqualSlots(this.files, files, 1, maxFiles);
      assert this.files[0] + buffer == path;
    }

    /** A write to the buffer; any part of what is pending may go to the file at once. */
    method Put(bytes: Bytes)
      requires Valid()
      modifies this`files, this`buffer, this`size
      ensures Valid()
      ensures View() == old(View()).(current := old(View()).current + bytes)
      ensures SameBeyond(files, old(files), maxFiles)
    {
      var pending := buffer + bytes;
      var k: nat :| k <= |pending|;
      var path := files[0] + pending[..k];
      assert path + pending[k..] == files[0] + buffer + bytes;
      files := files[0 := path];
      buffer := pending[k..];
      size := size + |bytes|;
      EqualSlots(files, old(files), 1, maxFiles);
    }

    method Flush()
      requires Valid()
      modifies this`files, this`buffer, this`unflushed, this`safe
      ensures Valid() && View() == Flushed(old(View()))
      ensures buffer == [] && files == old(files)[0 := old(View()).current]
      ensures SameBeyond(files, old(files), maxFiles)
    {
      unflushed := 0;
      files := files[0 := files[0] + buffer];
      buffer := [];
      safe := |files[0]|;
      assert files[0] + buffer == old(files[0] + buffer);
      EqualSlots(files, old(files), 1, maxFiles);
    }

    /** Each rotated file from the last but one down takes the next number. */
    method MoveAll()
      requires maxFiles >= 1
      modifies this`files
      ensures Moved(files, old(files), 1, maxFiles) && Slot(files, 1) == None
      ensures Slot(files, 0) == old(Slot(files, 0)) && SameBeyond(files, old(files), maxFiles)
    {
      if maxFiles in files {
        files := files - {maxFiles};
      }
      var n := maxFiles;
      while n > 1
        invariant 1 <= n <= maxFiles && Slot(files, n) == None
        invariant SameSlots(files, old(files), 0, n) && Moved(files, old(files), n, maxFiles)
        invariant SameBeyond(files, old(files), maxFiles)
      {
        n := n - 1;
        ghost var before := files;
        if n in files {
          files := files[n + 1 := files[n]] - {n};
        }
        assert forall i: nat :: i != n && i != n + 1 ==> Slot(files, i) == Slot(before, i);
        assert Slot(files, n + 1) == Slot(before, n) == Slot(old(files), n) && Slot(files, n) == None;
      }
    }

    method Rotate()
      requires Valid()
      modifies this
      ensures Valid() && View() == Rotated(old(View()))
      ensures buffer == [] && SameBeyond(files, old(files), maxFiles)
    {
      Flush();
      if maxFiles == 0 {
        files := files[0 := []];
        size, safe := 0, 0;
        return;
      }
      ghost var flushed := files;
      MoveAll();
      ghost var moved := files;
      assert 0 in files by { assert Slot(files, 0).Some?; }
      files := files[1 := files[0]] - {0};
      if 0 !in files {
        files := files[0 := []];
      }
      size, safe := 0, 0;
      assert Slot(files, 1) == Slot(flushed, 0);
      assert forall i: nat :: i > 1 ==> Slot(files, i) == Slot(moved, i);
      MovedSlots(files, flushed, maxFiles, flushed[0]);
    }

    method WriteLine(line: Bytes)
      requires Valid()
      modifies this
      ensures Valid() && View() == Written(old(View()), maxSize, line)
      ensures SameBeyond(files, old(files), maxFiles)
    {
      var needed := |line| + 1;
      if size > 0 && size + needed > maxSize {
        Rotate();
      }
      ghost var base := View();
      Put(line);
      Put([NEWLINE]);
      assert base.current + line + [NEWLINE] == base.current + (line + [NEWLINE]);
      if unflushed + 1 >= FLUSH_EVERY_LINES {
        Flush();
      } else {
        unflushed := unflushed + 1;
      }
    }

    /** Any sequence of writes and flushes. */
    method Perform(ops: seq<Op>)
      requires Valid()
      modifies this
      ensures Valid() && View() == Run(old(View()), maxSize, ops)
      ensures SameBeyond(files, old(files), maxFiles)
    {
      for k := 0 to |ops|
        invariant Valid() && View() == Run(old(View()), maxSize, ops[..k])
        invariant SameBeyond(files, old(files), maxFiles)
      {
        assert ops[..k + 1][..k] == ops[..k];
        match ops[k]
        case Write(line) => WriteLine(line);
        case Flush => Flush();
      }
      assert ops[..|ops|] == ops;
    }
  }

  function Opened(files: Files, maxFiles: nat): Log {
    var path := if 0 in files then files[0] else [];
    Log(Slots(files, 1, maxFiles), path, |path|, 0)
  }

  // ── What was written, entry by entry ──────────────────────────────────────

  /** One line with its newline, or what a file held before the writer opened it. */
  type Entry = Bytes

  type Generation = seq<Entry>

  function Concat(entries: seq<Entry>): Bytes {
    if entries == [] then [] else Concat(entries[..|entries| - 1]) + entries[|entries| - 1]
  }

  /** The log as whole entries, with the generations that have fallen out. */
  datatype Story = Story(older: seq<Option<Generation>>, current: Generation, lost: seq<Generation>)

  function Fallen(story: Story): seq<Generation> {
    if story.older == [] then [story.current]
    else
      match story.older[|story.older| - 1]
      case None => []
      case Some(g) => [g]
  }

  function Turn(story: Story): Story {
    Story(Shift(story.older, story.current), [], story.lost + Fallen(story))
  }

  function Tell(story: Story, maxSize: nat, op: Op): Story {
    match op
    case Flush => story
    case Write(line) =>
      var base := if MustRotate(Concat(story.current), maxSize, line) then Turn(story) else story;
      base.(current := base.current + [line + [NEWLINE]])
  }

  function TellAll(story: Story, maxSize: nat, ops: seq<Op>): Story {
    if ops == [] then story else Tell(TellAll(story, maxSize, ops[..|ops| - 1]), maxSize, ops[|ops| - 1])
  }

  function EntriesOf(content: Bytes): Generation {
    if content == [] then [] else [content]
  }

  function Prior(older: seq<Option<Bytes>>): seq<Option<Generation>> {
    if older == [] then []
    else [if older[0].None? then None else Some(EntriesOf(older[0].value))] + Prior(older[1..])
  }

  function Begin(log: Log): Story {
    Story(Prior(log.older), EntriesOf(log.current), [])
  }

  function Contents(older: seq<Option<Generation>>): (r: seq<Option<Bytes>>)
    ensures |r| == |older|
  {
    if older == [] then []
    else [if older[0].None? then None else Some(Concat(older[0].value))] + Contents(older[1..])
  }

  function Flat(generations: seq<Generation>): seq<Entry> {
    if generations == [] then []
    else Flat(generations[..|generations| - 1]) + generations[|generations| - 1]
  }

  function Held(slot: Option<Generation>): Generation {
    if slot.None? then [] else slot.value
  }

  /** The rotated files, oldest first. */
  function Kept(older: seq<Option<Generation>>): seq<Entry> {
    if older == [] then [] else Kept(older[1..]) + Held(older[0])
  }

  /** Every entry, lost ones included, oldest first. */
  function History(story: Story): seq<Entry> {
    Flat(story.lost) + Kept(story.older) + story.current
  }

  function LineOf(op: Op): seq<Entry> {
    match op
    case Write(line) => [line + [NEWLINE]]
    case Flush => []
  }

  function LinesOf(ops: seq<Op>): seq<Entry> {
    if ops == [] then []
    else LinesOf(ops[..|ops| - 1]) + LineOf(ops[|ops| - 1])
  }

  /**
   The story tells the log: the same files, and all but the last `unflushed`
   entries of the current file are on disk for certain, whole.
   */
  ghost predicate Tells(story: Story, log: Log) {
    && Contents(story.older) == log.older
    && Concat(story.current) == log.current
    && log.unflushed <= |story.current| && log.unflushed < FLUSH_EVERY_LINES
    && log.safe <= |log.current|
    && Concat(story.current[..|story.current| - log.unflushed]) == log.current[..log.safe]
  }

  predicate WellSized(g: Generation, maxSize: nat) {
    |g| <= 1 || |Concat(g)| <= maxSize
  }

  predicate AllWellSized(story: Story, maxSize: nat) {
    && WellSized(story.current, maxSize)
    && forall slot <- story.older :: slot.Some? ==> WellSized(slot.value, maxSize)
  }

  /** The occupied slots come first. */
  predicate NoHoles<T>(older: seq<Option<T>>) {
    forall i, j :: 0 <= i < j < |older| && older[j].Some? ==> older[i].Some?
  }

  predicate Full<T>(older: seq<Option<T>>) {
    forall i :: 0 <= i < |older| ==> older[i].Some?
  }

  // ── Proofs about one step ─────────────────────────────────────────────────

  lemma {:induction false} ContentsOfInit(older: seq<Option<Generation>>)
    requires older != []
    ensures Contents(older[..|older| - 1]) == Contents(older)[..|older| - 1]
  {
    if |older| > 1 {
      ContentsOfInit(older[1..]);
      assert older[..|older| - 1][1..] == older[1..][..|older| - 2];
    }
  }

  lemma ContentsOfShift(older: seq<Option<Generation>>, newest: Generation)
    ensures Contents(Shift(older, newest)) == Shift(Contents(older), Concat(newest))
  {
    if older != [] {
      ContentsOfInit(older);
      assert Shift(older, newest)[1..] == older[..|older| - 1];
    }
  }

  lemma {:induction false} KeptOfLast(older: seq<Option<Generation>>)
    requires older != []
    ensures Kept(older) == Held(older[|older| - 1]) + Kept(older[..|older| - 1])
  {
    if |older| > 1 {
      KeptOfLast(older[1..]);
      assert older[1..][|older| - 2] == older[|older| - 1];
      assert older[..|older| - 1][1..] == older[1..][..|older| - 2];
      assert older[..|older| - 1][0] == older[0];
    }
  }

  lemma FlatOne(generations: seq<Generation>, g: Generation)
    ensures Flat(generations + [g]) == Flat(generations) + g
  {
  }

  lemma FlatOfFallen(story: Story)
    requires story.older != []
    ensures Flat(story.lost + Fallen(story)) == Flat(story.lost) + Held(story.older[|story.older| - 1])
  {
    var last := story.older[|story.older| - 1];
    if last.Some? {
      FlatOne(story.lost, last.value);
    } else {
      assert story.lost + Fallen(story) == story.lost;
    }
  }

  lemma TurnKeepsHistory(story: Story)
    ensures History(Turn(story)) == History(story)
  {
    var older := story.older;
    if older == [] {
      FlatOne(story.lost, story.current);
    } else {
      var oldest, rest := Held(older[|older| - 1]), Kept(older[..|older| - 1]);
      FlatOfFallen(story);
      KeptOfLast(older);
    }
  }

  lemma TellAddsTheLine(story: Story, maxSize: nat, op: Op)
    ensures History(Tell(story, maxSize, op)) == History(story) + LineOf(op)
    ensures |Tell(story, maxSize, op).older| == |story.older|
  {
    if op.Write? {
      TurnKeepsHistory(story);
      var base := if MustRotate(Concat(story.current), maxSize, op.line) then Turn(story) else story;
      assert Flat(base.lost) + Kept(base.older) + (base.current + LineOf(op))
          == Flat(base.lost) + Kept(base.older) + base.current + LineOf(op);
    }
  }

  lemma TurnTells(story: Story, log: Log)
    requires Tells(story, log)
    ensures Tells(Turn(story), Rotated(log))
  {
    ContentsOfShift(story.older, story.current);
  }

  lemma FlushTells(story: Story, log: Log)
    requires Contents(story.older) == log.older && Concat(story.current) == log.current
    ensures Tells(story, Flushed(log))
  {
    assert story.current[..|story.current|] == story.current;
    assert log.current[..|log.current|] == log.current;
  }

  lemma AppendTells(story: Story, log: Log, line: Bytes)
    requires Tells(story, log)
    ensures
      var longer, after := story.(current := story.current + [line + [NEWLINE]]), Appended(log, line);
      Tells(longer, if after.unflushed >= FLUSH_EVERY_LINES then Flushed(after) else after)
  {
    var longer, after := story.(current := story.current + [line + [NEWLINE]]), Appended(log, line);
    if after.unflushed >= FLUSH_EVERY_LINES {
      FlushTells(longer, after);
    } else {
      var n := |story.current| - log.unflushed;
      assert longer.current[..n] == story.current[..n];
      assert after.current[..log.safe] == log.current[..log.safe];
    }
  }

  predicate NoEmptyEntries(story: Story) {
    forall e <- story.current :: e != []
  }

  lemma ConcatIsNotEmpty(entries: seq<Entry>)
    requires forall e <- entries :: e != []
    ensures Concat(entries) == [] ==> entries == []
  {
    assert entries != [] ==> entries[|entries| - 1] in entries;
  }

  lemma TurnKeepsSizes(story: Story, maxSize: nat)
    requires AllWellSized(story, maxSize)
    ensures AllWellSized(Turn(story), maxSize)
  {
  }

  lemma AppendKeepsSizes(g: Generation, maxSize: nat, line: Bytes)
    requires WellSized(g, maxSize) && (forall e <- g :: e != [])
    requires !MustRotate(Concat(g), maxSize, line)
    ensures WellSized(g + [line + [NEWLINE]], maxSize)
  {
    ConcatIsNotEmpty(g);
  }

  lemma TellKeepsSizes(story: Story, maxSize: nat, op: Op)
    requires AllWellSized(story, maxSize) && NoEmptyEntries(story)
    ensures AllWellSized(Tell(story, maxSize, op), maxSize) && NoEmptyEntries(Tell(story, maxSize, op))
  {
    if op.Write? {
      if MustRotate(Concat(story.current), maxSize, op.line) {
        TurnKeepsSizes(story, maxSize);
      } else {
        AppendKeepsSizes(story.current, maxSize, op.line);
      }
    }
  }

  lemma TellKeepsNoHoles(story: Story, maxSize: nat, op: Op)
    requires NoHoles(story.older) && (story.lost != [] ==> Full(story.older))
    ensures
      var after := Tell(story, maxSize, op);
      NoHoles(after.older) && (after.lost != [] ==> Full(after.older))
  {
  }

  // ── Over whole runs ───────────────────────────────────────────────────────

  lemma {:induction false} PriorContents(older: seq<Option<Bytes>>)
    ensures Contents(Prior(older)) == older
    ensures forall slot <- Prior(older) :: slot.Some? ==> |slot.value| <= 1
  {
    if older != [] {
      PriorContents(older[1..]);
      assert older[0].Some? ==> Concat(EntriesOf(older[0].value)) == older[0].value;
      assert older == [older[0]] + older[1..];
    }
  }

  /** A log just opened: what it holds is on disk. */
  predicate Fresh(log: Log) {
    log.safe == |log.current| && log.unflushed == 0
  }

  lemma BeginTells(log: Log, maxSize: nat)
    requires Fresh(log)
    ensures Tells(Begin(log), log) && AllWellSized(Begin(log), maxSize)
  {
    PriorContents(log.older);
    var c := EntriesOf(log.current);
    assert c[..|c|] == c && log.current[..|log.current|] == log.current;
  }

  /** What every step keeps, of a story that began as `first` and took in `lines`. */
  ghost predicate InOrder(first: Story, lines: seq<Entry>, story: Story) {
    History(story) == History(first) + lines && |story.older| == |first.older|
  }

  lemma TellKeepsOrder(first: Story, lines: seq<Entry>, story: Story, maxSize: nat, op: Op)
    requires InOrder(first, lines, story)
    ensures InOrder(first, lines + LineOf(op), Tell(story, maxSize, op))
  {
    TellAddsTheLine(story, maxSize, op);
    assert History(first) + lines + LineOf(op) == History(first) + (lines + LineOf(op));
  }

  /**
   After any writes and flushes, the entries fallen out, then the rotated files
   oldest to newest, then the current file and its buffer are exactly the
   entries there were and the lines written, in order.  Only whole generations
   fall out, no entry is split, every file is at most `maxSize` bytes or a
   single entry, and the disk lacks at most the last 255 lines, which end with
   a newline each.
   */
  lemma {:induction false} OnlyWholeGenerationsAreLost(log: Log, maxSize: nat, ops: seq<Op>)
    requires Fresh(log)
    ensures
      var story, end := TellAll(Begin(log), maxSize, ops), Run(log, maxSize, ops);
      && Tells(story, end) && end.unflushed <= 255
      && InOrder(Begin(log), LinesOf(ops), story)
      && AllWellSized(story, maxSize)
      && NoEmptyEntries(story)
  {
    if ops == [] {
      BeginTells(log, maxSize);
    } else {
      var before, op := ops[..|ops| - 1], ops[|ops| - 1];
      OnlyWholeGenerationsAreLost(log, maxSize, before);
      var story := TellAll(Begin(log), maxSize, before);
      var end := Run(log, maxSize, before);
      match op {
        case Flush => FlushTells(story, end);
        case Write(line) =>
          if MustRotate(end.current, maxSize, line) {
            TurnTells(story, end);
            AppendTells(Turn(story), Rotated(end), line);
          } else {
            AppendTells(story, end, line);
          }
      }
      TellKeepsSizes(story, maxSize, op);
      TellKeepsOrder(Begin(log), LinesOf(before), story, maxSize, op);
    }
  }

  /** From a log without gaps in its numbering, nothing falls out while a number is free. */
  lemma {:induction false} NothingIsLostWhileASlotIsFree(log: Log, maxSize: nat, ops: seq<Op>)
    requires NoHoles(log.older)
    ensures
      var story := TellAll(Begin(log), maxSize, ops);
      NoHoles(story.older) && (story.lost != [] ==> Full(story.older))
  {
    if ops == [] {
      PriorKeepsHoles(log.older);
    } else {
      NothingIsLostWhileASlotIsFree(log, maxSize, ops[..|ops| - 1]);
      TellKeepsNoHoles(TellAll(Begin(log), maxSize, ops[..|ops| - 1]), maxSize, ops[|ops| - 1]);
    }
  }

  lemma {:induction false} PriorKeepsHoles(older: seq<Option<Bytes>>)
    ensures |Prior(older)| == |older| && forall i :: 0 <= i < |older| ==> (Prior(older)[i].Some? <==> older[i].Some?)
  {
    if older != [] {
      PriorKeepsHoles(older[1..]);
    }
  }

  // ── When the log rotates, and when it does not ────────────────────────────

  /**
   A line that fits, or finds an empty file, goes to the end of the current file
   and no file moves; any other begins a new one and every file moves.  The
   256th line since the last flush flushes, and no earlier one does.
   */
  lemma ALineThatFitsStays(log: Log, maxSize: nat, line: Bytes)
    ensures
      var fits := log.current == [] || |log.current| + |line| + 1 <= maxSize;
      var after := Written(log, maxSize, line);
      && after.current == (if fits then log.current else []) + line + [10]
      && after.older == (if fits then log.older else Shift(log.older, log.current))
      && (after.unflushed, after.safe) ==
           if fits && log.unflushed + 1 >= 256 then (0, |after.current|)
           else if fits then (log.unflushed + 1, log.safe) else (1, 0)
  {
    assert log.current + (line + [10]) == log.current + line + [10];
    assert [] + (line + [10]) == [] + line + [10];
  }

  /** Moving on puts the newest file first, every other one place further, and keeps their number. */
  lemma {:induction false} ShiftedBy<T>(older: seq<Option<T>>, newest: T, i: nat)
    requires i < |older|
    ensures Shift(older, newest)[i] == if i == 0 then Some(newest) else older[i - 1]
  {
  }

  /** The bytes that an operation, and that a number of them, puts into the log. */
  function BytesIn(op: Op): nat {
    if op.Write? then |op.line| + 1 else 0
  }

  function BytesOf(ops: seq<Op>): nat {
    if ops == [] then 0 else BytesOf(ops[..|ops| - 1]) + BytesIn(ops[|ops| - 1])
  }

  lemma {:induction false} ConcatTogether(a: seq<Entry>, b: seq<Entry>)
    ensures Concat(a + b) == Concat(a) + Concat(b)
  {
    if b == [] {
      assert a + b == a;
    } else {
      assert (a + b)[..|a + b| - 1] == a + b[..|b| - 1];
      ConcatTogether(a, b[..|b| - 1]);
    }
  }

  lemma ConcatOfLine(op: Op)
    ensures Concat(LineOf(op)) == if op.Write? then op.line + [10] else []
    ensures |Concat(LineOf(op))| == BytesIn(op)
  {
    if op.Write? {
      assert LineOf(op)[..0] == [];
    }
  }

  /** The current file has grown by these bytes, and no file has moved. */
  predicate Grown(log: Log, end: Log, bytes: Bytes) {
    end.older == log.older && end.current == log.current + bytes
  }

  lemma GrownTwice(log: Log, mid: Log, end: Log, a: Bytes, b: Bytes)
    requires Grown(log, mid, a) && Grown(mid, end, b)
    ensures Grown(log, end, a + b)
  {
    assert log.current + a + b == log.current + (a + b);
  }

  lemma OneMoreFits(log: Log, maxSize: nat, op: Op)
    requires |log.current| + BytesIn(op) <= maxSize
    ensures Grown(log, Step(log, maxSize, op), Concat(LineOf(op)))
  {
    ConcatOfLine(op);
    if op.Write? {
      ALineThatFitsStays(log, maxSize, op.line);
      assert log.current + op.line + [10] == log.current + (op.line + [10]);
    } else {
      assert log.current + [] == log.current;
    }
  }

  /** While everything written fits into the current file, no file moves and the current one holds it all. */
  lemma {:induction false} NothingMovesWhileItFits(log: Log, maxSize: nat, ops: seq<Op>)
    requires |log.current| + BytesOf(ops) <= maxSize
    ensures Grown(log, Run(log, maxSize, ops), Concat(LinesOf(ops)))
  {
    if ops == [] {
      assert log.current + [] == log.current;
    } else {
      var before, op := ops[..|ops| - 1], ops[|ops| - 1];
      NothingMovesWhileItFits(log, maxSize, before);
      BytesAreWritten(before);
      OneMoreFits(Run(log, maxSize, before), maxSize, op);
      ConcatTogether(LinesOf(before), LineOf(op));
      GrownTwice(log, Run(log, maxSize, before), Run(log, maxSize, ops), Concat(LinesOf(before)), Concat(LineOf(op)));
    }
  }

  lemma {:induction false} BytesAreWritten(ops: seq<Op>)
    ensures |Concat(LinesOf(ops))| == BytesOf(ops)
  {
    if ops != [] {
      BytesAreWritten(ops[..|ops| - 1]);
      ConcatTogether(LinesOf(ops[..|ops| - 1]), LineOf(ops[|ops| - 1]));
      ConcatOfLine(ops[|ops| - 1]);
    }
  }

  lemma NoTurnWhileItFits(story: Story, maxSize: nat, op: Op)
    requires |Concat(story.current)| + BytesIn(op) <= maxSize
    ensures
      var after := Tell(story, maxSize, op);
      && after.lost == story.lost && after.older == story.older
      && |Concat(after.current)| == |Concat(story.current)| + BytesIn(op)
  {
    if op.Write? {
      ConcatOfLine(op);
      ConcatTogether(story.current, LineOf(op));
    }
  }

  /** And nothing falls out. */
  lemma {:induction false} NothingIsLostWhileItFits(log: Log, maxSize: nat, ops: seq<Op>)
    requires |log.current| + BytesOf(ops) <= maxSize
    ensures
      var story := TellAll(Begin(log), maxSize, ops);
      story.lost == [] && |Concat(story.current)| == |log.current| + BytesOf(ops)
  {
    if ops == [] {
      assert log.current != [] ==> EntriesOf(log.current)[..0] == [];
    } else {
      var before, op := ops[..|ops| - 1], ops[|ops| - 1];
      NothingIsLostWhileItFits(log, maxSize, before);
      NoTurnWhileItFits(TellAll(Begin(log), maxSize, before), maxSize, op);
    }
  }

  // ── The generations are packed tight ──────────────────────────────────────

  /** The rotated files that there are, oldest first. */
  function KeptGenerations(older: seq<Option<Generation>>): seq<Generation> {
    if older == [] then []
    else KeptGenerations(older[1..]) + (if older[0].Some? then [older[0].value] else [])
  }

  /** All generations, lost ones included, oldest first and the current one last. */
  function Generations(story: Story): (all: seq<Generation>)
    ensures all != [] && all[|all| - 1] == story.current
  {
    story.lost + KeptGenerations(story.older) + [story.current]
  }

  lemma {:induction false} KeptGenerationsOfLast(older: seq<Option<Generation>>)
    requires older != []
    ensures
      var last := older[|older| - 1];
      KeptGenerations(older) == (if last.Some? then [last.value] else []) + KeptGenerations(older[..|older| - 1])
  {
    if |older| > 1 {
      KeptGenerationsOfLast(older[1..]);
      assert older[1..][|older| - 2] == older[|older| - 1];
      assert older[..|older| - 1][1..] == older[1..][..|older| - 2];
      assert older[..|older| - 1][0] == older[0];
    }
  }

  lemma TurnAddsAGeneration(story: Story)
    ensures Generations(Turn(story)) == Generations(story) + [[]]
  {
    if story.older != [] {
      var shifted := Shift(story.older, story.current);
      KeptGenerationsOfLast(story.older);
      assert shifted[1..] == story.older[..|story.older| - 1];
      assert KeptGenerations(shifted) == KeptGenerations(story.older[..|story.older| - 1]) + [story.current];
    }
  }

  /** From generation `k` on, each was too full for the line that the next one begins with. */
  ghost predicate Packed(generations: seq<Generation>, k: nat, maxSize: nat) {
    forall i :: k <= i < |generations| - 1 ==> TooFull(generations[i], generations[i + 1], maxSize)
  }

  /** What is not empty, and has no room for the first entry of the other. */
  predicate TooFull(g: Generation, next: Generation, maxSize: nat) {
    |Concat(g)| > 0 && next != [] && |Concat(g)| + |next[0]| > maxSize
  }

  lemma AppendToTheLast(story: Story, entry: Entry)
    ensures
      var before, after := Generations(story), Generations(story.(current := story.current + [entry]));
      after == before[..|before| - 1] + [story.current + [entry]]
  {
  }

  lemma PackedOneMore(generations: seq<Generation>, k: nat, maxSize: nat, entry: Entry)
    requires k < |generations| && Packed(generations, k, maxSize)
    ensures
      var last := generations[|generations| - 1];
      && Packed(generations[..|generations| - 1] + [last + [entry]], k, maxSize)
      && (|Concat(last)| > 0 && |Concat(last)| + |entry| > maxSize ==> Packed(generations + [[entry]], k, maxSize))
  {
    var n := |generations| - 1;
    var longer := generations[..n] + [generations[n] + [entry]];
    forall i | k <= i < |longer| - 1 ensures TooFull(longer[i], longer[i + 1], maxSize) {
      assert TooFull(generations[i], generations[i + 1], maxSize);
      assert longer[i + 1][0] == generations[i + 1][0];
    }
  }

  lemma PackedWrite(story: Story, k: nat, maxSize: nat, line: Bytes)
    requires k < |Generations(story)| && Packed(Generations(story), k, maxSize)
    ensures
      var before, after := Generations(story), Generations(Tell(story, maxSize, Write(line)));
      |before| <= |after| && after[..k] == before[..k] && Packed(after, k, maxSize)
  {
    var before := Generations(story);
    var entry: Entry := line + [10];
    PackedOneMore(before, k, maxSize, entry);
    if |Concat(story.current)| > 0 && |Concat(story.current)| + |line| + 1 > maxSize {
      TurnAddsAGeneration(story);
      AppendToTheLast(Turn(story), entry);
      assert (before + [[]])[..|before|] == before && [] + [entry] == [entry];
    } else {
      AppendToTheLast(story, entry);
    }
  }

  /**
   A rotation happens only for want of room: of the generations that were closed
   since the log was opened, each was too full for the line that came next, with
   which the next one begins.  Those there were before stay as they were.
   */
  lemma {:induction false} GenerationsArePacked(log: Log, maxSize: nat, ops: seq<Op>)
    ensures
      var first, all := Generations(Begin(log)), Generations(TellAll(Begin(log), maxSize, ops));
      |first| <= |all| && all[..|first| - 1] == first[..|first| - 1] && Packed(all, |first| - 1, maxSize)
  {
    if ops != [] {
      var before, op := ops[..|ops| - 1], ops[|ops| - 1];
      GenerationsArePacked(log, maxSize, before);
      if op.Write? {
        PackedWrite(TellAll(Begin(log), maxSize, before), |Generations(Begin(log))| - 1, maxSize, op.line);
      }
    }
  }
}
