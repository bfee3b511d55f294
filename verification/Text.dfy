/** Lines and white space, as the standard library of the source defines them. */
module Text {
  import opened Prelude

  /** Characters with the Unicode property `White_Space`. */
  predicate IsWhite(c: char) {
    '\U{9}' <= c <= '\U{D}' || c == ' ' || c == '\U{85}' || c == '\U{A0}' || c == '\U{1680}'
    || '\U{2000}' <= c <= '\U{200A}' || c == '\U{2028}' || c == '\U{2029}' || c == '\U{202F}'
    || c == '\U{205F}' || c == '\U{3000}'
  }

  predicate IsAsciiWhite(c: char) {
    c == ' ' || c == '\t' || c == '\n' || c == '\r' || c == '\U{C}'
  }

  /** The 25 characters of Unicode's `White_Space`, the five that ASCII calls so among them. */
  lemma TheWhiteSpaces(c: char)
    ensures IsWhite(c) <==>
              || c in {'\t', '\n', '\U{B}', '\U{C}', '\r', ' ', '\U{85}', '\U{A0}', '\U{1680}', '\U{2000}', '\U{2001}',
                       '\U{2002}', '\U{2003}', '\U{2004}', '\U{2005}', '\U{2006}', '\U{2007}', '\U{2008}', '\U{2009}'}
              || c in {'\U{200A}', '\U{2028}', '\U{2029}', '\U{202F}', '\U{205F}', '\U{3000}'}
    ensures IsAsciiWhite(c) <==> c in {'\t', '\n', '\U{C}', '\r', ' '}
  {
  }

  function TrimStart(s: string): (r: string)
    ensures r == "" || !IsWhite(r[0])
  {
    if s != "" && IsWhite(s[0]) then TrimStart(s[1..]) else s
  }

  function TrimEnd(s: string): (r: string)
    ensures r == "" || !IsWhite(r[|r| - 1])
  {
    if s != "" && IsWhite(s[|s| - 1]) then TrimEnd(s[..|s| - 1]) else s
  }

  function Trim(s: string): string {
    TrimEnd(TrimStart(s))
  }

  /** Text that neither begins nor ends with white space is what trimming leaves. */
  lemma TrimKeeps(s: string)
    requires s != "" ==> !IsWhite(s[0]) && !IsWhite(s[|s| - 1])
    ensures Trim(s) == s
  {
  }

  lemma {:induction false} TrimEndDropsWhite(value: string, white: string)
    requires value != "" ==> !IsWhite(value[|value| - 1])
    requires forall i :: 0 <= i < |white| ==> IsWhite(white[i])
    ensures TrimEnd(value + white) == value
    decreases |white|
  {
    if white == "" {
      assert value + white == value;
    } else {
      assert (value + white)[..|value + white| - 1] == value + white[..|white| - 1];
      TrimEndDropsWhite(value, white[..|white| - 1]);
    }
  }

  lemma TrimEndOfBoth(a: string, b: string)
    requires TrimEnd(b) != ""
    ensures TrimEnd(a + b) == a + TrimEnd(b)
    decreases |b|
  {
    if IsWhite(b[|b| - 1]) {
      assert (a + b)[..|a + b| - 1] == a + b[..|b| - 1];
      TrimEndOfBoth(a, b[..|b| - 1]);
    }
  }

  /** It does not matter which end is trimmed first. */
  lemma {:induction false} TrimEitherEnd(s: string)
    ensures TrimStart(TrimEnd(s)) == Trim(s)
    ensures TrimEnd(s) == "" <==> Trim(s) == ""
    decreases |s|
  {
    if s != "" && IsWhite(s[0]) {
      var c, rest := [s[0]], s[1..];
      assert s == c + rest;
      TrimEitherEnd(rest);
      if TrimEnd(rest) != "" {
        TrimEndOfBoth(c, rest);
        assert (c + TrimEnd(rest))[1..] == TrimEnd(rest);
      } else {
        TrimEndOfWhite(s);
      }
    } else if s != "" {
      TrimEndKeepsStart(s);
    }
  }

  /** White space before nothing but white space is trimmed with it. */
  lemma TrimEndOfWhite(s: string)
    requires s != "" && IsWhite(s[0]) && TrimEnd(s[1..]) == ""
    ensures TrimEnd(s) == ""
    decreases |s|
  {
    if |s| > 1 {
      var init := s[..|s| - 1];
      assert init[1..] == s[1..][..|s| - 2];
      TrimEndOfWhite(init);
    }
  }

  lemma TrimEndKeepsStart(s: string)
    ensures TrimEnd(s) != "" ==> s != "" && TrimEnd(s)[0] == s[0]
    ensures s != "" && !IsWhite(s[0]) ==> TrimEnd(s) != ""
    decreases |s|
  {
    if s != "" && IsWhite(s[|s| - 1]) {
      TrimEndKeepsStart(s[..|s| - 1]);
    }
  }

  predicate StartsWith(s: string, prefix: string) {
    |prefix| <= |s| && s[..|prefix|] == prefix
  }

  lemma DiffersAt(s: string, prefix: string, k: nat)
    requires k < |s| && k < |prefix| && s[k] != prefix[k]
    ensures !StartsWith(s, prefix)
  {
  }

  /** The first place a character occurs. */
  function IndexOf(s: string, c: char): (at: Option<nat>)
    ensures at.Some? ==> at.value < |s| && s[at.value] == c && c !in s[..at.value]
    ensures at.None? ==> c !in s
  {
    if s == "" then None
    else if s[0] == c then Some(0)
    else
      match IndexOf(s[1..], c)
      case None => None
      case Some(k) => Some(k + 1)
  }

  lemma {:induction false} IndexOfIs(s: string, c: char, k: nat)
    requires k < |s| && s[k] == c && c !in s[..k]
    ensures IndexOf(s, c) == Some(k)
  {
  }

  function WithoutReturn(line: string): string {
    if line != "" && line[|line| - 1] == '\r' then line[..|line| - 1] else line
  }

  /** The lines of a text; a line ends with a newline or a carriage return and a newline, and the last may have no end. */
  function Lines(text: string): seq<string>
    decreases |text|
  {
    if text == "" then []
    else
      match IndexOf(text, '\n')
      case None => [text]
      case Some(k) => [WithoutReturn(text[..k])] + Lines(text[k + 1..])
  }

  /**
   Where a line ends: at a newline, of which a carriage return in front of it is
   part, or at the end of the text, where a carriage return is not.
   */
  lemma ALineEndsHere(line: string, rest: string)
    requires '\n' !in line
    ensures Lines(line + "\n" + rest) ==
              [if line != "" && line[|line| - 1] == '\r' then line[..|line| - 1] else line] + Lines(rest)
    ensures Lines(line + "\r\n" + rest) == [line] + Lines(rest)
    ensures Lines(line) == if line == "" then [] else [line]
  {
    var text := line + "\n" + rest;
    assert text[..|line|] == line && text[|line| + 1..] == rest;
    IndexOfIs(text, '\n', |line|);
    var returned := line + "\r\n" + rest;
    assert returned[..|line| + 1] == line + "\r" && returned[|line| + 2..] == rest;
    assert (line + "\r")[..|line|] == line;
    IndexOfIs(returned, '\n', |line| + 1);
  }

  /** Each line with its newline. */
  function Joined(lines: seq<string>): string {
    if lines == [] then "" else lines[0] + "\n" + Joined(lines[1..])
  }

  predicate IsPlainLine(line: string) {
    '\n' !in line && (line != "" ==> line[|line| - 1] != '\r')
  }

  /** Lines written one by one are read back as they were. */
  lemma {:induction false} LinesOfJoined(lines: seq<string>)
    requires forall l <- lines :: IsPlainLine(l)
    ensures Lines(Joined(lines)) == lines
  {
    if lines != [] {
      var line, rest := lines[0], Joined(lines[1..]);
      var text := line + "\n" + rest;
      assert line in lines;
      assert text == line + ("\n" + rest) && text[..|line|] == line && text[|line| + 1..] == rest;
      IndexOfIs(text, '\n', |line|);
      LinesOfJoined(lines[1..]);
    }
  }
}
