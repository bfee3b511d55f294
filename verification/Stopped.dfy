/** The file that remembers which services were stopped by hand. */
module Stopped {
  import opened Prelude
  import opened Text

  const VERSION_LINE := "# servicrab stopped v1"

  // ── The format ────────────────────────────────────────────────────────────

  /** What one line names. */
  function NameIn(rawLine: string): Option<string> {
    var line := Trim(rawLine);
    if line == "" || line[0] == '#' then None else Some(line)
  }

  function NamesIn(lines: seq<string>): set<string> {
    if lines == [] then {}
    else
      NamesIn(lines[..|lines| - 1])
      + match NameIn(lines[|lines| - 1]) { case None => {} case Some(name) => {name} }
  }

  function ParseNames(text: string): set<string> {
    NamesIn(Lines(text))
  }

  /** A name is read exactly when some line is that name, white space around it aside, and no comment. */
  lemma {:induction false} NamesAreReadFromLines(lines: seq<string>, name: string)
    ensures name in NamesIn(lines) <==>
              name != "" && name[0] != '#' && exists i :: 0 <= i < |lines| && Trim(lines[i]) == name
  {
    if lines != [] {
      var before := lines[..|lines| - 1];
      NamesAreReadFromLines(before, name);
      if i :| 0 <= i < |before| && Trim(before[i]) == name {
        assert Trim(lines[i]) == name;
      }
      if i :| 0 <= i < |lines| && Trim(lines[i]) == name {
        assert i < |before| ==> before[i] == lines[i];
      }
    }
  }

  /** A name that can stand on a line of its own. */
  predicate IsName(name: string) {
    && name != "" && name[0] != '#' && '\n' !in name
    && !IsWhite(name[0]) && !IsWhite(name[|name| - 1])
  }

  function Rendered(list: seq<string>): string {
    Joined([VERSION_LINE] + list)
  }

  /** The file is a version line and then one name a line. */
  lemma RenderedLineByLine(list: seq<string>, name: string)
    ensures Rendered([]) == "# servicrab stopped v1\n"
    ensures Rendered(list + [name]) == Rendered(list) + name + "\n"
  {
    assert [VERSION_LINE] + [] == [VERSION_LINE];
    assert Joined([VERSION_LINE]) == VERSION_LINE + "\n" + Joined([]);
    JoinedOneMore([VERSION_LINE] + list, name);
    assert [VERSION_LINE] + (list + [name]) == [VERSION_LINE] + list + [name];
  }

  ghost predicate Enumerates(list: seq<string>, names: set<string>) {
    forall n :: n in list <==> n in names
  }

  lemma {:induction false} NamesOfPlainLines(list: seq<string>)
    requires forall n <- list :: IsName(n)
    ensures forall n :: n in NamesIn([VERSION_LINE] + list) <==> n in list
  {
    var lines := [VERSION_LINE] + list;
    if list == [] {
      assert lines[..0] == [] && lines[0] == VERSION_LINE;
    } else {
      var init, last := list[..|list| - 1], list[|list| - 1];
      assert lines[..|lines| - 1] == [VERSION_LINE] + init && lines[|lines| - 1] == last;
      assert last in list;
      TrimKeeps(last);
      NamesOfPlainLines(init);
      assert list == init + [last];
    }
  }

  /** What is written for a set of names is read back as that set, in whatever order they were written. */
  lemma WrittenNamesAreRead(list: seq<string>, names: set<string>)
    requires Enumerates(list, names) && forall n <- names :: IsName(n)
    ensures ParseNames(Rendered(list)) == names
  {
    var lines := [VERSION_LINE] + list;
    forall l | l in lines ensures IsPlainLine(l) {
      if l != VERSION_LINE {
        assert l in names;
      }
    }
    LinesOfJoined(lines);
    NamesOfPlainLines(list);
  }

  lemma {:induction false} TrimTakesAPart(s: string)
    ensures forall c :: c in TrimStart(s) ==> c in s
    ensures forall c :: c in TrimEnd(s) ==> c in s
    decreases |s|
  {
    if s != "" {
      TrimTakesAPart(s[1..]);
      TrimTakesAPart(s[..|s| - 1]);
    }
  }

  lemma LineNamesAreNames(line: string)
    requires '\n' !in line
    ensures NameIn(line).Some? ==> IsName(NameIn(line).value)
  {
    TrimTakesAPart(line);
    TrimTakesAPart(TrimStart(line));
    TrimEndKeepsStart(TrimStart(line));
  }

  lemma {:induction false} LinesHaveNoNewline(text: string)
    ensures forall l <- Lines(text) :: '\n' !in l
    decreases |text|
  {
    var at := IndexOf(text, '\n');
    if text != "" && at.Some? {
      LinesHaveNoNewline(text[at.value + 1..]);
      var line := WithoutReturn(text[..at.value]);
      assert forall c :: c in line ==> c in text[..at.value];
    }
  }

  lemma {:induction false} NamesInAreNames(lines: seq<string>)
    requires forall l <- lines :: '\n' !in l
    ensures forall n <- NamesIn(lines) :: IsName(n)
  {
    if lines != [] {
      NamesInAreNames(lines[..|lines| - 1]);
      LineNamesAreNames(lines[|lines| - 1]);
    }
  }

  /** Whatever the file holds, what is read from it can be written again. */
  lemma ParsedNamesAreNames(text: string)
    ensures forall n <- ParseNames(text) :: IsName(n)
  {
    LinesHaveNoNewline(text);
    NamesInAreNames(Lines(text));
  }

  method Parse(text: string) returns (names: set<string>)
    ensures names == ParseNames(text)
  {
    names := {};
    var lines := Lines(text);
    for k := 0 to |lines|
      invariant names == NamesIn(lines[..k])
    {
      assert lines[..k + 1][..k] == lines[..k];
      var line := Trim(lines[k]);
      if line != "" && line[0] != '#' {
        names := names + {line};
      }
    }
    assert lines[..|lines|] == lines;
  }

  method Render(names: set<string>) returns (text: string)
    ensures exists list :: Enumerates(list, names) && text == Rendered(list)
  {
    text := VERSION_LINE + "\n";
    ghost var list: seq<string> := [];
    assert Joined([VERSION_LINE]) == VERSION_LINE + "\n" + Joined([]);
    var rest := names;
    while rest != {}
      invariant rest <= names && Enumerates(list, names - rest) && text == Rendered(list)
      decreases |rest|
    {
      var name :| name in rest;
      rest := rest - {name};
      JoinedOneMore([VERSION_LINE] + list, name);
      assert [VERSION_LINE] + (list + [name]) == [VERSION_LINE] + list + [name];
      text := text + name + "\n";
      list := list + [name];
    }
  }

  lemma {:induction false} JoinedOneMore(lines: seq<string>, line: string)
    ensures Joined(lines + [line]) == Joined(lines) + line + "\n"
  {
    if lines == [] {
      assert [] + [line] == [line] && Joined([line]) == line + "\n" + "";
    } else {
      JoinedOneMore(lines[1..], line);
      assert (lines + [line])[1..] == lines[1..] + [line];
      assert lines[0] + "\n" + (Joined(lines[1..]) + line + "\n") == lines[0] + "\n" + Joined(lines[1..]) + line + "\n";
    }
  }

  // ── The file ──────────────────────────────────────────────────────────────

  /** How far a write gets before the disk refuses or the machine stops. */
  datatype Fate = Completes | FailsAt(step: nat) | StopsAt(step: nat)

  const CREATE := 0
  const WRITE := 1
  const SYNC := 2
  const RENAME := 3

  predicate Reaches(fate: Fate, step: nat) {
    fate.Completes? || fate.step > step
  }

  /** Whether a write with this fate is done; a fate later than the last step is none at all. */
  predicate Succeeds(fate: Fate) {
    Reaches(fate, RENAME)
  }

  /** A file as it reads, and how much of it is on the disk for certain. */
  datatype Stored = Stored(contents: string, safe: nat)

  /** What a power cut can leave of a file: the part on the disk, and any more of what was written after it. */
  predicate CutLeaves(file: Option<Stored>, left: Option<string>) {
    match file
    case None => left.None?
    case Some(f) => left.Some? && left.value <= f.contents && Min(f.safe, |f.contents|) <= |left.value|
  }

  /** All of the file is on the disk. */
  predicate Whole(file: Option<Stored>) {
    file.Some? ==> file.value.safe >= |file.value.contents|
  }

  function TextOf(file: Option<Stored>): Option<string> {
    if file.None? then None else Some(file.value.contents)
  }

  /** Of a file that is whole, a power cut leaves what it reads. */
  lemma WholeFilesSurvive(file: Option<Stored>)
    requires Whole(file)
    ensures forall left :: CutLeaves(file, left) <==> left == TextOf(file)
  {
    if file.Some? {
      var contents := file.value.contents;
      forall left | CutLeaves(file, left) ensures left == TextOf(file) {
        assert left.value == contents[..|left.value|] && contents[..|contents|] == contents;
      }
    }
  }

  /** Bytes handed to the system and not yet forced to the disk. */
  function Written(contents: string): Stored {
    Stored(contents, 0)
  }

  function Synced(f: Stored): Stored {
    f.(safe := |f.contents|)
  }

  /** Whatever a power cut leaves is what was there before, or all that was to be written. */
  ghost predicate OldOrNew(file: Option<Stored>, was: Option<string>, contents: string) {
    forall left :: CutLeaves(file, left) ==> left == was || left == Some(contents)
  }

  /**
   A write that renames its file without the sync can leave a third thing under
   the name, unless there is no other beginning of the new contents to leave.
   */
  lemma TheSyncIsNeeded(was: Option<string>, contents: string)
    ensures OldOrNew(Some(Synced(Written(contents))), was, contents)
    ensures OldOrNew(Some(Written(contents)), was, contents)
            <==> contents == "" || (|contents| == 1 && was == Some(""))
  {
    WholeFilesSurvive(Some(Synced(Written(contents))));
    var file := Some(Written(contents));
    assert CutLeaves(file, Some(contents[..0])) && contents[..0] == "";
    if |contents| > 1 {
      assert CutLeaves(file, Some(contents[..1]));
    } else {
      forall left | CutLeaves(file, left) ensures left == Some("") || left == Some(contents) {
        assert left.value == contents[..|left.value|] && contents[..|contents|] == contents;
      }
    }
  }

  function Remembered(file: Option<Stored>): set<string> {
    if file.None? then {} else ParseNames(file.value.contents)
  }

  /** What a reading gives: nothing at all when it fails, for whatever reason. */
  function Reading(file: Option<Stored>, readable: bool): set<string> {
    if readable then Remembered(file) else {}
  }

  class Memory {
    /** What stands under the file's name, if anything does. */
    var file: Option<Stored>
    var temporary: Option<Stored>

    /**
     Wherever this ends, a power cut leaves the old contents or all of the new
     ones under the name.
     */
    method WriteAtomically(contents: string, fate: Fate) returns (ok: bool)
      requires Whole(file)
      modifies this
      ensures ok == Succeeds(fate)
      ensures Whole(file) && TextOf(file) == if Succeeds(fate) then Some(contents) else old(TextOf(file))
      ensures !Succeeds(fate) ==> file == old(file)
      ensures OldOrNew(file, old(TextOf(file)), contents)
      ensures !fate.StopsAt? || Succeeds(fate) ==> temporary.None?
    {
      WholeFilesSurvive(file);
      if !Reaches(fate, CREATE) {
        temporary := if fate.FailsAt? then None else temporary;
        return false;
      }
      temporary := Some(Stored("", 0));
      if !Reaches(fate, WRITE) {
        temporary := if fate.FailsAt? then None else temporary;
        return false;
      }
      temporary := Some(Written(contents));
      if !Reaches(fate, SYNC) {
        temporary := if fate.FailsAt? then None else temporary;
        return false;
      }
      temporary := Some(Synced(temporary.value));
      if !Reaches(fate, RENAME) {
        temporary := if fate.FailsAt? then None else temporary;
        return false;
      }
      file, temporary := temporary, None;
      WholeFilesSurvive(file);
      return true;
    }

    /** A file that is not there, or cannot be read or decoded, remembers nothing. */
    method Read(readable: bool) returns (names: set<string>)
      ensures names == Reading(file, readable)
      ensures forall n <- names :: IsName(n)
    {
      if file.None? || !readable {
        return {};
      }
      names := Parse(file.value.contents);
      ParsedNamesAreNames(file.value.contents);
    }

    /** Record whether a service is stopped by hand: all of it, or nothing. */
    method Record(service: string, stopped: bool, readable: bool, fate: Fate) returns (ok: bool)
      requires IsName(service) && Whole(file)
      modifies this
      ensures Whole(file)
      ensures
        var before := Reading(old(file), readable);
        var after := if stopped then before + {service} else before - {service};
        && (after == before ==> ok && file == old(file))
        && (after != before ==> ok == Succeeds(fate) && (ok ==> Remembered(file) == after))
        && (!ok ==> file == old(file))
    {
      var names := Read(readable);
      var changed := (service in names) != stopped;
      ghost var before := names;
      if stopped {
        names := names + {service};
      } else {
        names := names - {service};
      }
      if !changed {
        assert names == before;
        return true;
      }
      assert names != before by {
        assert (service in names) != (service in before);
      }
      ok := WriteNames(names, fate);
    }

    method WriteNames(names: set<string>, fate: Fate) returns (ok: bool)
      requires (forall n <- names :: IsName(n)) && Whole(file)
      modifies this
      ensures Whole(file)
      ensures ok == Succeeds(fate)
      ensures ok ==> file.Some? && Remembered(file) == names
      ensures !ok ==> file == old(file)
    {
      var text := Render(names);
      ghost var list :| Enumerates(list, names) && text == Rendered(list);
      WrittenNamesAreRead(list, names);
      ok := WriteAtomically(text, fate);
    }

    /** Forget every name that is not known any more. */
    method Reconcile(known: set<string>, readable: bool, fate: Fate) returns (r: Result<set<string>, ()>)
      requires Whole(file)
      modifies this
      ensures Whole(file)
      ensures
        var before := Reading(old(file), readable);
        && (before <= known ==> r == Ok({}) && file == old(file))
        && (!(before <= known) ==> (r.Ok? <==> Succeeds(fate)))
        && (r.Ok? ==> r.value == before - known && Reading(file, readable) == before * known)
        && (r.Ok? && !(before <= known) && before !! known ==> file.None?)
        && (r.Err? ==> file == old(file))
    {
      var remembered := Read(readable);
      if remembered == {} {
        assert {} * known == {};
        return Ok({});
      }
      var kept, dropped := remembered * known, remembered - known;
      if dropped == {} {
        forall n | n in remembered ensures n in known {
          assert n in known || n in dropped;
        }
        assert kept == remembered;
        return Ok({});
      }
      if kept == {} {
        if !Succeeds(fate) {
          return Err(());
        }
        file := None;
        return Ok(dropped);
      }
      var ok := WriteNames(kept, fate);
      return if ok then Ok(dropped) else Err(());
    }
  }

  // ── A history of stops and starts ─────────────────────────────────────────

  /** A change, whether the file could be read for it, and how its write went. */
  datatype Change = Change(service: string, stopped: bool, readable: bool, fate: Fate)

  /** The set after a history, the failed changes leaving it as it was. */
  function AfterChanges(names: set<string>, changes: seq<Change>): set<string> {
    if changes == [] then names
    else AfterChange(AfterChanges(names, changes[..|changes| - 1]), changes[|changes| - 1])
  }

  /** Behind a reading that failed a stop replaces the whole set, and a start finds nothing to do. */
  function AfterChange(before: set<string>, c: Change): set<string> {
    if !Succeeds(c.fate) then before
    else if !c.readable then if c.stopped then {c.service} else before
    else if c.stopped then before + {c.service} else before - {c.service}
  }

  /** A change settles its own service, or all of them when it is a stop and the file could not be read. */
  predicate Decides(c: Change, service: string) {
    Succeeds(c.fate) && if c.readable then c.service == service else c.stopped
  }

  predicate LastDecides(changes: seq<Change>, i: nat, service: string) {
    i < |changes| && Decides(changes[i], service) && forall j :: i < j < |changes| ==> !Decides(changes[j], service)
  }

  predicate NoneDecides(changes: seq<Change>, service: string) {
    forall i :: 0 <= i < |changes| ==> !Decides(changes[i], service)
  }

  lemma {:induction false} NobodyDecided(names: set<string>, changes: seq<Change>, service: string)
    requires NoneDecides(changes, service)
    ensures service in AfterChanges(names, changes) <==> service in names
  {
    if changes != [] {
      NobodyDecided(names, changes[..|changes| - 1], service);
      assert !Decides(changes[|changes| - 1], service);
    }
  }

  lemma {:induction false} SomebodyDecided(names: set<string>, changes: seq<Change>, i: nat, service: string)
    requires LastDecides(changes, i, service)
    ensures service in AfterChanges(names, changes) <==> changes[i].stopped && changes[i].service == service
  {
    if i < |changes| - 1 {
      var before := changes[..|changes| - 1];
      assert !Decides(changes[|changes| - 1], service) && LastDecides(before, i, service);
      SomebodyDecided(names, before, i, service);
    }
  }

  /**
   A service is remembered as the last change that settled it left it, and as it
   was when there was none: its own last successful change, or a stop of any
   service written after a reading that failed, which forgets all the others.
   */
  lemma TheLastChangeDecides(names: set<string>, changes: seq<Change>, service: string)
    ensures NoneDecides(changes, service) ==> (service in AfterChanges(names, changes) <==> service in names)
    ensures forall i: nat :: LastDecides(changes, i, service) ==>
              (service in AfterChanges(names, changes) <==> changes[i].stopped && changes[i].service == service)
  {
    if NoneDecides(changes, service) {
      NobodyDecided(names, changes, service);
    }
    forall i: nat | LastDecides(changes, i, service)
      ensures service in AfterChanges(names, changes) <==> changes[i].stopped && changes[i].service == service
    {
      SomebodyDecided(names, changes, i, service);
    }
  }

  /** Recording a whole history in the file. */
  method RecordAll(memory: Memory, changes: seq<Change>)
    requires (forall c <- changes :: IsName(c.service)) && Whole(memory.file)
    modifies memory
    ensures Whole(memory.file)
    ensures Remembered(memory.file) == AfterChanges(old(Remembered(memory.file)), changes)
  {
    ghost var names := Remembered(memory.file);
    for k := 0 to |changes|
      invariant Whole(memory.file) && Remembered(memory.file) == AfterChanges(names, changes[..k])
    {
      var c := changes[k];
      assert changes[..k + 1][..k] == changes[..k];
      assert c in changes;
      var _ := memory.Record(c.service, c.stopped, c.readable, c.fate);
    }
    assert changes[..|changes|] == changes;
  }
}
