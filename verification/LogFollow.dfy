/** Showing a log file: its last lines, and then each new line as it is completed. */
module LogFollow {
  import opened Prelude
  import opened LogWriter

  const RETURN: Byte := 13

  // ── Lines ─────────────────────────────────────────────────────────────────

  predicate IsLine(raw: Bytes) {
    raw != [] && raw[|raw| - 1] == NEWLINE
  }

  /** The bytes up to and including the first newline, or all of them. */
  function ReadUntil(content: Bytes): (raw: Bytes)
    ensures raw <= content && (content != [] ==> raw != [])
    ensures if IsLine(raw) then NEWLINE !in raw[..|raw| - 1] else raw == content && NEWLINE !in raw
  {
    if content == [] then []
    else if content[0] == NEWLINE then [NEWLINE]
    else
      var rest := ReadUntil(content[1..]);
      var raw := [content[0]] + rest;
      assert rest != [] ==> raw[..|raw| - 1] == [content[0]] + rest[..|rest| - 1];
      raw
  }

  function WithoutLast(raw: Bytes, b: Byte): Bytes {
    if raw != [] && raw[|raw| - 1] == b then raw[..|raw| - 1] else raw
  }

  /** A raw line without its ending. */
  function Decode(raw: Bytes): Bytes {
    WithoutLast(WithoutLast(raw, NEWLINE), RETURN)
  }

  /** A raw line ends with a newline, or with a carriage return and a newline; one more return belongs to the line. */
  lemma EndingsAreDropped(line: Bytes)
    ensures Decode(line + [13, 10]) == line
    ensures (line != [] ==> line[|line| - 1] != 13) ==> Decode(line + [10]) == line
    ensures (line != [] ==> line[|line| - 1] !in {10, 13}) ==> Decode(line) == line
  {
    assert (line + [13, 10])[..|line| + 1] == line + [13] && (line + [13])[..|line|] == line;
    assert (line + [10])[..|line|] == line;
  }

  /** The complete lines of some bytes. */
  function Lines(content: Bytes): seq<Bytes>
    decreases |content|
  {
    var raw := ReadUntil(content);
    if IsLine(raw) then [Decode(raw)] + Lines(content[|raw|..]) else []
  }

  /** Where the last complete line ends. */
  function CompleteEnd(content: Bytes): (end: nat)
    ensures end <= |content|
    decreases |content|
  {
    var raw := ReadUntil(content);
    if IsLine(raw) then |raw| + CompleteEnd(content[|raw|..]) else 0
  }

  /** What stands after the last complete line. */
  function Rest(content: Bytes): Bytes {
    content[CompleteEnd(content)..]
  }

  lemma RestOfLine(content: Bytes)
    requires IsLine(ReadUntil(content))
    ensures Rest(content) == Rest(content[|ReadUntil(content)|..])
  {
  }

  lemma {:induction false} LineIsReadWhole(line: Bytes, after: Bytes)
    requires NEWLINE !in line
    ensures ReadUntil(line + [NEWLINE] + after) == line + [NEWLINE]
  {
    if line == [] {
      assert (line + [NEWLINE] + after)[0] == NEWLINE;
    } else {
      LineIsReadWhole(line[1..], after);
      assert (line + [NEWLINE] + after)[1..] == line[1..] + [NEWLINE] + after;
      assert [line[0]] + (line[1..] + [NEWLINE]) == line + [NEWLINE];
    }
  }

  lemma FirstLineOfMore(a: Bytes, b: Bytes)
    requires IsLine(ReadUntil(a))
    ensures
      var raw := ReadUntil(a);
      ReadUntil(a + b) == raw && (a + b)[|raw|..] == a[|raw|..] + b && Rest(a) == Rest(a[|raw|..])
  {
    var raw := ReadUntil(a);
    var line, after := raw[..|raw| - 1], a[|raw|..];
    assert a + b == line + [NEWLINE] + (after + b);
    LineIsReadWhole(line, after + b);
    RestOfLine(a);
  }

  /** More bytes complete the line that was unfinished and then add their own. */
  lemma {:induction false} LinesOfMore(a: Bytes, b: Bytes)
    ensures Lines(a + b) == Lines(a) + Lines(Rest(a) + b)
    decreases |a|
  {
    var raw := ReadUntil(a);
    if IsLine(raw) {
      var after := a[|raw|..];
      FirstLineOfMore(a, b);
      LinesOfMore(after, b);
      calc {
        Lines(a + b);
        [Decode(raw)] + Lines(after + b);
        [Decode(raw)] + (Lines(after) + Lines(Rest(after) + b));
        [Decode(raw)] + Lines(after) + Lines(Rest(a) + b);
      }
    } else {
      assert Rest(a) == a;
    }
  }

  lemma {:induction false} CompleteEndOfMore(a: Bytes, b: Bytes)
    ensures CompleteEnd(a + b) == CompleteEnd(a) + CompleteEnd(Rest(a) + b)
    decreases |a|
  {
    var raw := ReadUntil(a);
    if IsLine(raw) {
      FirstLineOfMore(a, b);
      CompleteEndOfMore(a[|raw|..], b);
    } else {
      assert Rest(a) == a;
    }
  }

  function WrittenLines(lines: seq<Bytes>): Bytes {
    if lines == [] then [] else lines[0] + [NEWLINE] + WrittenLines(lines[1..])
  }

  predicate IsPlain(line: Bytes) {
    NEWLINE !in line && (line != [] ==> line[|line| - 1] != RETURN)
  }

  /** Lines written whole are read whole, and an unfinished one is not read as a line. */
  lemma {:induction false} WrittenLinesAreRead(lines: seq<Bytes>, partial: Bytes)
    requires (forall l <- lines :: IsPlain(l)) && NEWLINE !in partial
    ensures Lines(WrittenLines(lines) + partial) == lines && Rest(WrittenLines(lines) + partial) == partial
  {
    if lines == [] {
      assert [] + partial == partial;
      assert partial[0..] == partial;
    } else {
      assert lines[0] in lines;
      var after := WrittenLines(lines[1..]) + partial;
      assert WrittenLines(lines) + partial == lines[0] + [NEWLINE] + after;
      LineIsReadWhole(lines[0], after);
      assert (lines[0] + [NEWLINE] + after)[|lines[0]| + 1..] == after;
      RestOfLine(lines[0] + [NEWLINE] + after);
      WrittenLinesAreRead(lines[1..], partial);
    }
  }

  // ── One read of the file ──────────────────────────────────────────────────

  /** What a read gives: the lines, where the last one ends, and the rest if there is any. */
  datatype Chunk = Chunk(lines: seq<Bytes>, end: nat, partial: Option<Bytes>)

  /** The bytes from an offset on; a seek past the end finds none. */
  function From(file: Bytes, offset: nat): Bytes {
    if offset <= |file| then file[offset..] else []
  }

  function ChunkOf(file: Bytes, offset: nat): Chunk {
    var content := From(file, offset);
    var rest := Rest(content);
    Chunk(Lines(content), offset + CompleteEnd(content), if rest == [] then None else Some(Decode(rest)))
  }

  /** The reading loop. */
  method ReadLines(file: Bytes, offset: nat) returns (chunk: Chunk)
    ensures chunk == ChunkOf(file, offset)
  {
    var reader, lines, end := From(file, offset), [], offset;
    ghost var content := reader;
    while true
      invariant Lines(content) == lines + Lines(reader) && Rest(content) == Rest(reader)
      invariant end + CompleteEnd(reader) == offset + CompleteEnd(content)
      decreases |reader|
    {
      var buffer := ReadUntil(reader);
      if |buffer| == 0 {
        return Chunk(lines, end, None);
      }
      if buffer[|buffer| - 1] != NEWLINE {
        return Chunk(lines, end, Some(Decode(buffer)));
      }
      OneMoreLine(reader, lines);
      end := end + |buffer|;
      lines := lines + [Decode(buffer)];
      reader := reader[|buffer|..];
    }
  }

  lemma OneMoreLine(reader: Bytes, lines: seq<Bytes>)
    requires IsLine(ReadUntil(reader))
    ensures
      var raw := ReadUntil(reader);
      var after := reader[|raw|..];
      && lines + Lines(reader) == lines + [Decode(raw)] + Lines(after)
      && Rest(reader) == Rest(after) && CompleteEnd(reader) == |raw| + CompleteEnd(after)
  {
    var raw := ReadUntil(reader);
    var after := reader[|raw|..];
    RestOfLine(reader);
    assert lines + ([Decode(raw)] + Lines(after)) == lines + [Decode(raw)] + Lines(after);
  }

  // ── The last lines of a file ──────────────────────────────────────────────

  datatype Tail = Tail(lines: seq<Bytes>, end: nat)

  function LastOf<T>(s: seq<T>, count: nat): seq<T> {
    if |s| > count then s[|s| - count..] else s
  }

  /** The last ones are a whole end of what there is, as long as asked for. */
  lemma TheLastOnesAre<T>(s: seq<T>, count: nat)
    ensures |LastOf(s, count)| == Min(|s|, count) && s == s[..|s| - |LastOf(s, count)|] + LastOf(s, count)
  {
  }

  /** The unfinished line counts as one unless it is going to be followed. */
  function Shown(file: Bytes, follow: bool): seq<Bytes> {
    Lines(file) + if !follow && Rest(file) != [] then [Decode(Rest(file))] else []
  }

  /** Written lines are all shown, and what is unfinished behind them unless it will be completed. */
  lemma WrittenLinesAreShown(lines: seq<Bytes>, partial: Bytes, follow: bool)
    requires (forall l <- lines :: IsPlain(l)) && IsPlain(partial)
    ensures Shown(WrittenLines(lines) + partial, follow) ==
              lines + if follow || partial == [] then [] else [partial]
  {
    WrittenLinesAreRead(lines, partial);
    if partial != [] {
      EndingsAreDropped(partial);
      assert partial[|partial| - 1] in partial;
    }
  }

  method ReadTail(file: Option<Bytes>, count: nat, follow: bool) returns (tail: Tail)
    ensures file.None? ==> tail == Tail([], 0)
    ensures file.Some? ==> tail == Tail(LastOf(Shown(file.value, follow), count), CompleteEnd(file.value))
  {
    if file.None? {
      return Tail([], 0);
    }
    var chunk := ReadLines(file.value, 0);
    assert From(file.value, 0) == file.value;
    var lines := chunk.lines;
    if !follow && chunk.partial.Some? {
      lines := lines + [chunk.partial.value];
    }
    assert lines == Shown(file.value, follow);
    lines := LastLines(lines, count);
    return Tail(lines, chunk.end);
  }

  method LastLines(all: seq<Bytes>, count: nat) returns (lines: seq<Bytes>)
    ensures lines == LastOf(all, count)
  {
    lines := all;
    if count == 0 {
      lines := [];
    } else if |lines| > count {
      lines := lines[|lines| - count..];
    }
  }

  // ── Following ─────────────────────────────────────────────────────────────

  /** One pass over a source: what the file held when its length was sampled, then what a read found, if it could be opened. */
  datatype Look = Look(sampled: Bytes, read: Option<Bytes>)

  datatype Progress = Progress(offset: nat, printed: seq<Bytes>)

  function After(p: Progress, look: Look): Progress {
    var offset := if |look.sampled| < p.offset then 0 else p.offset;
    if |look.sampled| == offset || look.read.None? then Progress(offset, p.printed)
    else
      var chunk := ChunkOf(look.read.value, offset);
      Progress(chunk.end, p.printed + chunk.lines)
  }

  /** A file that has become shorter than what was read of it is read from its start. */
  lemma AShorterFileIsReadAgain(p: Progress, look: Look)
    requires |look.sampled| < p.offset && look.sampled != []
    ensures look.read.Some? ==>
              After(p, look) == Progress(CompleteEnd(look.read.value), p.printed + Lines(look.read.value))
    ensures look.read.None? ==> After(p, look) == Progress(0, p.printed)
  {
    if look.read.Some? {
      assert From(look.read.value, 0) == look.read.value;
    }
  }

  function AfterAll(p: Progress, looks: seq<Look>): Progress {
    if looks == [] then p else After(AfterAll(p, looks[..|looks| - 1]), looks[|looks| - 1])
  }

  /** One followed file and what has been printed of it. */
  class Source {
    var offset: nat
    var printed: seq<Bytes>

    function View(): Progress
      reads this
    {
      Progress(offset, printed)
    }

    /** Begin after printing the last `count` lines. */
    constructor (file: Option<Bytes>, count: nat)
      ensures View() == Start(file, count)
    {
      var tail := ReadTail(file, count, true);
      offset := tail.end;
      printed := tail.lines;
    }

    method Print(lines: seq<Bytes>)
      modifies this`printed
      ensures printed == old(printed) + lines
    {
      for k := 0 to |lines|
        invariant printed == old(printed) + lines[..k]
      {
        printed := printed + [lines[k]];
      }
    }

    method Pass(look: Look)
      modifies this
      ensures View() == After(old(View()), look)
    {
      if |look.sampled| < offset {
        offset := 0;
      }
      if |look.sampled| == offset {
        return;
      }
      if look.read.None? {
        return;
      }
      var chunk := ReadLines(look.read.value, offset);
      Print(chunk.lines);
      offset := chunk.end;
    }
  }

  function Start(file: Option<Bytes>, count: nat): Progress {
    match file
    case None => Progress(0, [])
    case Some(content) => Progress(CompleteEnd(content), LastOf(Lines(content), count))
  }

  function ContentOf(file: Option<Bytes>): Bytes {
    if file.Some? then file.value else []
  }

  /** Whether a pass gets as far as reading the file. */
  predicate Reads(p: Progress, look: Look) {
    look.read.Some? && |look.sampled| != if |look.sampled| < p.offset then 0 else p.offset
  }

  /** What the file held when it was last read. */
  function Seen(p: Progress, first: Bytes, looks: seq<Look>): Bytes {
    if looks == [] then first
    else
      var before, last := looks[..|looks| - 1], looks[|looks| - 1];
      if Reads(AfterAll(p, before), last) then last.read.value else Seen(p, first, before)
  }

  /** The file only ever grows, between looks and within one. */
  ghost predicate AppendOnly(p: Progress, first: Bytes, looks: seq<Look>) {
    looks != [] ==>
      var before, last := looks[..|looks| - 1], looks[|looks| - 1];
      && AppendOnly(p, first, before)
      && Seen(p, first, before) <= last.sampled
      && (last.read.Some? ==> last.sampled <= last.read.value)
  }

  /** The state of a follower that has shown everything complete in `seen`. */
  ghost predicate UpToDate(p: Progress, count: nat, first: Bytes, seen: Bytes) {
    && p.offset == CompleteEnd(seen)
    && Lines(first) <= Lines(seen)
    && p.printed == LastOf(Lines(first), count) + Lines(seen)[|Lines(first)|..]
  }

  lemma LinesFromTheEnd(a: Bytes, c: Bytes)
    requires a <= c
    ensures
      var more := From(c, CompleteEnd(a));
      Lines(c) == Lines(a) + Lines(more) && CompleteEnd(c) == CompleteEnd(a) + CompleteEnd(more)
  {
    var b := c[|a|..];
    assert c == a + b;
    assert c[CompleteEnd(a)..] == Rest(a) + b;
    LinesOfMore(a, b);
    CompleteEndOfMore(a, b);
  }

  lemma Extend<T>(shown: seq<T>, first: seq<T>, seen: seq<T>, more: seq<T>)
    requires first <= seen
    ensures shown + seen[|first|..] + more == shown + (seen + more)[|first|..]
  {
  }

  lemma ReadKeepsUpToDate(p: Progress, count: nat, first: Bytes, seen: Bytes, look: Look)
    requires UpToDate(p, count, first, seen) && Reads(p, look)
    requires seen <= look.sampled <= look.read.value
    ensures UpToDate(After(p, look), count, first, look.read.value)
  {
    var c := look.read.value;
    LinesFromTheEnd(seen, c);
    Extend(LastOf(Lines(first), count), Lines(first), Lines(seen), Lines(From(c, p.offset)));
  }

  /** A pass that could open the file has shown every line that was complete when it began. */
  lemma LookShowsWhatWasThere(p: Progress, count: nat, first: Bytes, seen: Bytes, look: Look)
    requires UpToDate(p, count, first, seen) && seen <= look.sampled
    requires look.read.Some? && look.sampled <= look.read.value
    ensures look.sampled <= if Reads(p, look) then look.read.value else seen
  {
  }

  lemma StartIsUpToDate(file: Option<Bytes>, count: nat)
    ensures UpToDate(Start(file, count), count, ContentOf(file), ContentOf(file))
  {
  }

  /**
   Following a growing file prints the last `count` lines it had and then every
   later complete line once, whole and in order, wherever the growth fell; the
   offset stays at the end of the last complete line.
   */
  lemma {:induction false} EveryLineIsPrintedOnce(file: Option<Bytes>, count: nat, looks: seq<Look>)
    requires AppendOnly(Start(file, count), ContentOf(file), looks)
    ensures
      var start, first := Start(file, count), ContentOf(file);
      var end, seen := AfterAll(start, looks), Seen(start, first, looks);
      && UpToDate(end, count, first, seen)
      && (looks != [] && looks[|looks| - 1].read.Some? ==> looks[|looks| - 1].sampled <= seen)
  {
    if looks == [] {
      StartIsUpToDate(file, count);
    } else {
      var start, first := Start(file, count), ContentOf(file);
      var before, look := looks[..|looks| - 1], looks[|looks| - 1];
      EveryLineIsPrintedOnce(file, count, before);
      var p, seen := AfterAll(start, before), Seen(start, first, before);
      if Reads(p, look) {
        ReadKeepsUpToDate(p, count, first, seen, look);
      } else if look.read.Some? {
        LookShowsWhatWasThere(p, count, first, seen, look);
      }
    }
  }

  /** Followed from far enough back, the file reads as one read of its final content would give it. */
  lemma FollowingIsOneRead(file: Option<Bytes>, count: nat, looks: seq<Look>)
    requires AppendOnly(Start(file, count), ContentOf(file), looks)
    requires count >= |Lines(ContentOf(file))|
    ensures
      var start := Start(file, count);
      AfterAll(start, looks).printed == Lines(Seen(start, ContentOf(file), looks))
  {
    EveryLineIsPrintedOnce(file, count, looks);
    Whole(Lines(ContentOf(file)), Lines(Seen(Start(file, count), ContentOf(file), looks)));
  }

  lemma Whole<T>(first: seq<T>, seen: seq<T>)
    requires first <= seen
    ensures first + seen[|first|..] == seen
  {
  }
}
