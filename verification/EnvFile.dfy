/** What a dotenv file means, and how it is parsed. */
module EnvFile {
  import opened Prelude
  import opened Text

  const BYTE_ORDER_MARK: char := '\U{FEFF}'

  datatype Reason = NoEquals | InvalidKey | DanglingBackslash | UnterminatedQuote | TextAfterQuote

  datatype SyntaxError = SyntaxError(line: nat, reason: Reason)

  /** What one line contributes. */
  datatype LineKind = Nothing | Assignment(key: string, value: string) | Wrong(reason: Reason)

  // ── Values ────────────────────────────────────────────────────────────────

  /** What a backslash and the character after it stand for. */
  function Unescaped(c: char): string {
    match c
    case 'n' => "\n"
    case 'r' => "\r"
    case 't' => "\t"
    case '\\' => "\\"
    case '"' => "\""
    case '$' => "$"
    case other => ['\\', other]
  }

  /** A quoted value's text and what stands after its closing quote. */
  datatype Quoted = Quoted(text: string, rest: string)

  function Prepend(text: string, r: Result<Quoted, Reason>): Result<Quoted, Reason> {
    match r
    case Ok(q) => Ok(Quoted(text + q.text, q.rest))
    case Err(e) => Err(e)
  }

  /** Read a quoted value, the opening quote already taken. */
  function UnquoteFrom(chars: string, quote: char, escapes: bool): Result<Quoted, Reason>
    decreases |chars|
  {
    if chars == "" then Err(UnterminatedQuote)
    else if chars[0] == quote then Ok(Quoted("", chars[1..]))
    else if escapes && chars[0] == '\\' then
      if |chars| == 1 then Err(DanglingBackslash)
      else Prepend(Unescaped(chars[1]), UnquoteFrom(chars[2..], quote, escapes))
    else Prepend([chars[0]], UnquoteFrom(chars[1..], quote, escapes))
  }

  /** A quoted value; after it only white space and a comment may follow. */
  function Unquote(raw: string, quote: char, escapes: bool): Result<string, Reason>
    requires raw != ""
  {
    match UnquoteFrom(raw[1..], quote, escapes)
    case Err(e) => Err(e)
    case Ok(q) =>
      var trailing := Trim(q.rest);
      if trailing != "" && trailing[0] != '#' then Err(TextAfterQuote) else Ok(q.text)
  }

  predicate CommentAt(s: string, i: nat)
    requires i < |s|
  {
    s[i] == '#' && (i == 0 || IsAsciiWhite(s[i - 1]))
  }

  /** The first place a trailing comment begins, or the end. */
  function CommentStart(s: string, i: nat): (k: nat)
    requires i <= |s|
    ensures i <= k <= |s| && (k < |s| ==> CommentAt(s, k)) && forall j :: i <= j < k ==> !CommentAt(s, j)
    decreases |s| - i
  {
    if i == |s| || CommentAt(s, i) then i else CommentStart(s, i + 1)
  }

  function ParseValue(raw: string): Result<string, Reason> {
    if raw != "" && raw[0] == '"' then Unquote(raw, '"', true)
    else if raw != "" && raw[0] == '\'' then Unquote(raw, '\'', false)
    else Ok(TrimEnd(raw[..CommentStart(raw, 0)]))
  }

  predicate IsKey(key: string) {
    key != "" && (forall c <- key :: !IsWhite(c)) && '\0' !in key
  }

  const EXPORT := "export "

  function AfterExport(line: string): string {
    if StartsWith(line, EXPORT) then TrimStart(line[|EXPORT|..]) else line
  }

  function ParseAssignment(line: string): LineKind {
    match IndexOf(line, '=')
    case None => Wrong(NoEquals)
    case Some(at) =>
      var key := Trim(line[..at]);
      if !IsKey(key) then Wrong(InvalidKey)
      else
        match ParseValue(TrimStart(line[at + 1..]))
        case Err(e) => Wrong(e)
        case Ok(value) => Assignment(key, value)
  }

  function ParseLine(rawLine: string): LineKind {
    var line := Trim(rawLine);
    if line == "" || line[0] == '#' then Nothing else ParseAssignment(AfterExport(line))
  }

  function Body(text: string): string {
    if text != "" && text[0] == BYTE_ORDER_MARK then text[1..] else text
  }

  /** What each line contributes. */
  function Kinds(lines: seq<string>): (kinds: seq<LineKind>)
    ensures |kinds| == |lines|
  {
    if lines == [] then [] else [ParseLine(lines[0])] + Kinds(lines[1..])
  }

  lemma {:induction false} KindAt(lines: seq<string>, k: nat)
    requires k < |lines|
    ensures Kinds(lines)[k] == ParseLine(lines[k])
  {
    if k > 0 {
      KindAt(lines[1..], k - 1);
    }
  }

  /** The assignments of the first `k` lines, later ones winning, or the first wrong line among them. */
  function Fold(kinds: seq<LineKind>, k: nat): Result<map<string, string>, SyntaxError>
    requires k <= |kinds|
  {
    if k == 0 then Ok(map[])
    else
      match Fold(kinds, k - 1)
      case Err(e) => Err(e)
      case Ok(before) => Extended(before, kinds[k - 1], k)
  }

  function Extended(before: map<string, string>, kind: LineKind, line: nat): Result<map<string, string>, SyntaxError> {
    match kind
    case Nothing => Ok(before)
    case Assignment(key, value) => Ok(before[key := value])
    case Wrong(reason) => Err(SyntaxError(line, reason))
  }

  function KindsOf(text: string): seq<LineKind> {
    Kinds(Lines(Body(text)))
  }

  function Parse(text: string): Result<map<string, string>, SyntaxError> {
    Fold(KindsOf(text), |KindsOf(text)|)
  }

  // ── The code ──────────────────────────────────────────────────────────────

  method ReadQuoted(raw: string, quote: char, escapes: bool) returns (r: Result<string, Reason>)
    requires raw != ""
    ensures r == Unquote(raw, quote, escapes)
  {
    var text, chars, closed := "", raw[1..], false;
    PrependNothing(UnquoteFrom(chars, quote, escapes));
    while chars != "" && !closed
      invariant UnquoteFrom(raw[1..], quote, escapes) ==
                  if closed then Ok(Quoted(text, chars)) else Prepend(text, UnquoteFrom(chars, quote, escapes))
      decreases |chars|
    {
      var c := chars[0];
      if c == quote {
        closed := true;
        assert text + "" == text;
        chars := chars[1..];
      } else if escapes && c == '\\' {
        if |chars| == 1 {
          return Err(DanglingBackslash);
        }
        PrependTwice(text, Unescaped(chars[1]), UnquoteFrom(chars[2..], quote, escapes));
        text := text + Unescaped(chars[1]);
        chars := chars[2..];
      } else {
        PrependTwice(text, [c], UnquoteFrom(chars[1..], quote, escapes));
        text := text + [c];
        chars := chars[1..];
      }
    }
    if !closed {
      return Err(UnterminatedQuote);
    }
    var trailing := Trim(chars);
    if trailing != "" && trailing[0] != '#' {
      return Err(TextAfterQuote);
    }
    return Ok(text);
  }

  lemma PrependNothing(r: Result<Quoted, Reason>)
    ensures Prepend("", r) == r
  {
    if r.Ok? {
      assert "" + r.value.text == r.value.text;
    }
  }

  lemma PrependTwice(a: string, b: string, r: Result<Quoted, Reason>)
    ensures Prepend(a, Prepend(b, r)) == Prepend(a + b, r)
  {
    if r.Ok? {
      assert a + (b + r.value.text) == a + b + r.value.text;
    }
  }

  method StripTrailingComment(value: string) returns (r: string)
    ensures r == value[..CommentStart(value, 0)]
  {
    var i := 0;
    while i < |value|
      invariant i <= |value| && CommentStart(value, i) == CommentStart(value, 0)
    {
      if value[i] == '#' && (i == 0 || IsAsciiWhite(value[i - 1])) {
        return value[..i];
      }
      i := i + 1;
    }
    return value;
  }

  method ReadValue(raw: string) returns (r: Result<string, Reason>)
    ensures r == ParseValue(raw)
  {
    if raw != "" && raw[0] == '"' {
      r := ReadQuoted(raw, '"', true);
    } else if raw != "" && raw[0] == '\'' {
      r := ReadQuoted(raw, '\'', false);
    } else {
      var stripped := StripTrailingComment(raw);
      return Ok(TrimEnd(stripped));
    }
  }

  /** The body of the loop over the lines. */
  method ReadLine(lines: seq<string>, k: nat) returns (kind: LineKind)
    requires k < |lines|
    ensures kind == Kinds(lines)[k]
  {
    KindAt(lines, k);
    var line := Trim(lines[k]);
    if line == "" || line[0] == '#' {
      return Nothing;
    }
    line := AfterExport(line);
    var at := IndexOf(line, '=');
    if at.None? {
      return Wrong(NoEquals);
    }
    var key := Trim(line[..at.value]);
    if !IsKey(key) {
      return Wrong(InvalidKey);
    }
    var value := ReadValue(TrimStart(line[at.value + 1..]));
    if value.Err? {
      return Wrong(value.error);
    }
    return Assignment(key, value.value);
  }

  /** The loop over the lines. */
  method ParseLines(lines: seq<string>, ghost kinds: seq<LineKind>)
    returns (r: Result<map<string, string>, SyntaxError>)
    requires kinds == Kinds(lines)
    ensures r == Fold(kinds, |kinds|)
  {
    var out: map<string, string> := map[];
    for k := 0 to |lines|
      invariant Fold(kinds, k) == Ok(out)
    {
      var kind := ReadLine(lines, k);
      assert Fold(kinds, k + 1) == Extended(out, kind, k + 1);
      if kind.Wrong? {
        WrongStays(kinds, k + 1, |kinds|);
        return Err(SyntaxError(k + 1, kind.reason));
      }
      if kind.Assignment? {
        out := out[kind.key := kind.value];
      }
    }
    return Ok(out);
  }

  /** The whole text, its mark dropped, line after line. */
  method ParseFile(text: string) returns (r: Result<map<string, string>, SyntaxError>)
    ensures r == Parse(text)
  {
    r := ParseLines(Lines(Body(text)), KindsOf(text));
  }

  lemma {:induction false} WrongStays(kinds: seq<LineKind>, k: nat, n: nat)
    requires k <= n <= |kinds| && Fold(kinds, k).Err?
    ensures Fold(kinds, n) == Fold(kinds, k)
    decreases n - k
  {
    if k < n {
      WrongStays(kinds, k, n - 1);
    }
  }

  // ── What a file means ─────────────────────────────────────────────────────

  predicate Assigns(kind: LineKind, key: string) {
    kind.Assignment? && kind.key == key
  }

  /** Line `i` is the last of the first `k` that assigns `key`. */
  predicate LastAssigns(kinds: seq<LineKind>, k: nat, i: nat, key: string)
    requires k <= |kinds|
  {
    i < k && Assigns(kinds[i], key) && forall j :: i < j < k ==> !Assigns(kinds[j], key)
  }

  predicate NoneAssigns(kinds: seq<LineKind>, k: nat, key: string)
    requires k <= |kinds|
  {
    forall j :: 0 <= j < k ==> !Assigns(kinds[j], key)
  }

  predicate NoneWrong(kinds: seq<LineKind>, k: nat)
    requires k <= |kinds|
  {
    forall i :: 0 <= i < k ==> !kinds[i].Wrong?
  }

  lemma {:induction false} FoldLaterWins(kinds: seq<LineKind>, k: nat, key: string)
    requires k <= |kinds| && Fold(kinds, k).Ok?
    ensures NoneWrong(kinds, k)
    ensures key !in Fold(kinds, k).value <==> NoneAssigns(kinds, k, key)
    ensures forall i: nat :: LastAssigns(kinds, k, i, key) ==>
              key in Fold(kinds, k).value && Fold(kinds, k).value[key] == kinds[i].value
  {
    if k > 0 {
      FoldLaterWins(kinds, k - 1, key);
      if !Assigns(kinds[k - 1], key) {
        assert forall i: nat :: LastAssigns(kinds, k, i, key) ==> LastAssigns(kinds, k - 1, i, key);
      }
    }
  }

  /**
   A text that parses has no wrong line; a key that no line assigns is absent,
   and one that some line assigns has the value of the last line that does.
   */
  lemma LaterAssignmentsWin(text: string, key: string)
    requires Parse(text).Ok?
    ensures
      var kinds, m := KindsOf(text), Parse(text).value;
      && NoneWrong(kinds, |kinds|)
      && (key !in m <==> NoneAssigns(kinds, |kinds|, key))
      && (forall i: nat :: LastAssigns(kinds, |kinds|, i, key) ==> key in m && m[key] == kinds[i].value)
  {
    FoldLaterWins(KindsOf(text), |KindsOf(text)|, key);
  }

  lemma {:induction false} FoldStopsAtFirstWrong(kinds: seq<LineKind>, k: nat)
    requires k <= |kinds|
    ensures Fold(kinds, k).Ok? <==> NoneWrong(kinds, k)
    ensures Fold(kinds, k).Err? ==>
              var e := Fold(kinds, k).error;
              1 <= e.line <= k && kinds[e.line - 1] == Wrong(e.reason) && NoneWrong(kinds, e.line - 1)
  {
    if k > 0 {
      FoldStopsAtFirstWrong(kinds, k - 1);
    }
  }

  /** A text is refused exactly for its first wrong line, with that line's number. */
  lemma TheFirstWrongLineIsReported(text: string)
    ensures
      var kinds, r := KindsOf(text), Parse(text);
      && (r.Ok? <==> NoneWrong(kinds, |kinds|))
      && (r.Err? ==>
            && 1 <= r.error.line <= |kinds| && kinds[r.error.line - 1] == Wrong(r.error.reason)
            && NoneWrong(kinds, r.error.line - 1))
  {
    FoldStopsAtFirstWrong(KindsOf(text), |KindsOf(text)|);
  }

  // ── The other forms of a line ─────────────────────────────────────────────

  lemma {:induction false} LiteralIsRead(value: string, rest: string)
    requires '\'' !in value
    ensures UnquoteFrom(value + ("'" + rest), '\'', false) == Ok(Quoted(value, rest))
  {
    if value == "" {
      assert "" + ("'" + rest) == "'" + rest && ("'" + rest)[1..] == rest;
    } else {
      var chars := value + ("'" + rest);
      assert value[0] in value && chars[0] == value[0];
      assert chars[1..] == value[1..] + ("'" + rest);
      LiteralIsRead(value[1..], rest);
      assert [value[0]] + value[1..] == value;
    }
  }

  /** Between single quotes nothing is special; after them only white space and a comment may follow. */
  lemma SingleQuotesAreLiteral(value: string, rest: string)
    requires '\'' !in value
    ensures ParseValue("'" + value + "'" + rest) ==
              if Trim(rest) == "" || Trim(rest)[0] == '#' then Ok(value) else Err(TextAfterQuote)
  {
    var raw := "'" + value + "'" + rest;
    assert raw[0] == '\'' && raw[1..] == value + ("'" + rest);
    LiteralIsRead(value, rest);
  }

  lemma {:induction false} CommentStartIs(s: string, i: nat, k: nat)
    requires i <= k < |s| && CommentAt(s, k) && forall j :: i <= j < k ==> !CommentAt(s, j)
    ensures CommentStart(s, i) == k
    decreases k - i
  {
    if i < k {
      CommentStartIs(s, i + 1, k);
    }
  }

  /**
   An unquoted value ends before white space and a `#`, whatever the white
   space, as long as the last of it is an ASCII one; a `#` inside a word is
   part of the value, and one that nothing precedes leaves an empty value.
   */
  lemma UnquotedEndsAtAComment(value: string, white: string, comment: string)
    requires value != "" && value[0] != '"' && value[0] != '\''
    requires !IsWhite(value[|value| - 1]) && forall j :: 0 <= j < |value| ==> !CommentAt(value, j)
    requires white != "" && IsAsciiWhite(white[|white| - 1]) && forall i :: 0 <= i < |white| ==> IsWhite(white[i])
    ensures ParseValue(value + white + "#" + comment) == Ok(value)
    ensures ParseValue("#" + comment) == Ok("")
  {
    var raw, k := value + white + "#" + comment, |value| + |white|;
    assert raw[k] == '#' && raw[k - 1] == white[|white| - 1];
    forall j | 0 <= j < k ensures !CommentAt(raw, j) {
      if j < |value| {
        assert !CommentAt(value, j) && raw[j] == value[j] && (j > 0 ==> raw[j - 1] == value[j - 1]);
      } else {
        assert raw[j] == white[j - |value|];
      }
    }
    CommentStartIs(raw, 0, k);
    assert raw[..k] == value + white;
    TrimEndDropsWhite(value, white);
  }

  /** No `#` at the start or behind ASCII white space. */
  predicate HasNoComment(text: string) {
    forall i :: 0 <= i < |text| && text[i] == '#' ==>
      i > 0 && text[i - 1] !in {' ', '\t', '\n', '\r', '\U{C}'}
  }

  lemma {:induction false} NoCommentNoStart(s: string, i: nat)
    requires i <= |s| && HasNoComment(s)
    ensures CommentStart(s, i) == |s|
    decreases |s| - i
  {
    if i < |s| {
      NoCommentNoStart(s, i + 1);
    }
  }

  lemma WhiteHoldsNoComment(value: string, white: string)
    requires HasNoComment(value) && forall i :: 0 <= i < |white| ==> IsWhite(white[i])
    ensures HasNoComment(value + white)
  {
    var raw := value + white;
    forall i | |value| <= i < |raw| ensures raw[i] != '#' {
      assert raw[i] == white[i - |value|];
    }
    assert forall i :: 0 <= i < |value| ==> raw[i] == value[i];
  }

  /** A value without quotes and without a comment is itself; white space at its end does not belong to it. */
  lemma UnquotedIsItself(value: string, white: string)
    requires value != "" ==> value[0] != '"' && value[0] != '\'' && !IsWhite(value[|value| - 1])
    requires HasNoComment(value) && forall i :: 0 <= i < |white| ==> IsWhite(white[i])
    ensures ParseValue(value + white) == Ok(value)
  {
    var raw := value + white;
    WhiteHoldsNoComment(value, white);
    NoCommentNoStart(raw, 0);
    assert raw[..|raw|] == raw;
    TrimEndDropsWhite(value, white);
    assert raw != "" ==> raw[0] == if value != "" then value[0] else white[0];
  }

  /** Plain `KEY=value` assigns the value as it stands. */
  lemma PlainAssignmentsAreRead(key: string, value: string)
    requires Admissible(key) && !StartsWith(key + "=" + value, "export ")
    requires value != "" ==>
               value[0] != '"' && value[0] != '\'' && !IsWhite(value[0]) && !IsWhite(value[|value| - 1])
    requires HasNoComment(value)
    ensures ParseLine(key + "=" + value) == Assignment(key, value)
  {
    var line := key + "=" + value;
    assert line[..|key|] == key && line[|key| + 1..] == value && line[0] == key[0];
    assert key[0] in key && key[|key| - 1] in key;
    assert line[|line| - 1] == if value == "" then '=' else value[|value| - 1];
    TrimKeeps(line);
    IndexOfIs(line, '=', |key|);
    TrimKeeps(key);
    UnquotedIsItself(value, "");
    assert value + "" == value;
  }

  /** Between double quotes a backslash makes one character of two, or stands for itself before any other. */
  lemma BackslashesMean(c: char, tail: string)
    ensures
      var text := if c == 'n' then "\n" else if c == 'r' then "\r" else if c == 't' then "\t"
                  else if c in {'\\', '"', '$'} then [c] else ['\\', c];
      UnquoteFrom(['\\', c] + tail, '"', true) == Prepend(text, UnquoteFrom(tail, '"', true))
    ensures UnquoteFrom("\\", '"', true) == Err(DanglingBackslash)
    ensures UnquoteFrom("", '"', true) == UnquoteFrom("", '\'', false) == Err(UnterminatedQuote)
  {
    assert (['\\', c] + tail)[2..] == tail;
  }

  /** What cannot be a key: nothing, or what holds white space or a NUL. */
  lemma NoKey(key: string)
    ensures !IsKey(key) <==> key == "" || exists i :: 0 <= i < |key| && (IsWhite(key[i]) || key[i] == '\0')
  {
    if IsKey(key) {
      forall i | 0 <= i < |key| ensures !IsWhite(key[i]) && key[i] != '\0' {
        assert key[i] in key;
      }
    } else if '\0' in key {
      var i :| 0 <= i < |key| && key[i] == '\0';
    } else if key != "" {
      var c :| c in key && IsWhite(c);
      var i :| 0 <= i < |key| && key[i] == c;
    }
  }

  /** A line that says something is wrong without an `=`, or with something before the first one that is no key. */
  lemma WrongLines(key: string, value: string)
    requires '=' !in key
    ensures ParseAssignment(key) == Wrong(NoEquals)
    ensures ParseAssignment(key + "=" + value) == Wrong(InvalidKey) <==> !IsKey(Trim(key))
  {
    var line := key + "=" + value;
    assert line[..|key|] == key;
    IndexOfIs(line, '=', |key|);
    ValuesAreNotKeys(TrimStart(line[|key| + 1..]));
  }

  lemma ValuesAreNotKeys(raw: string)
    ensures ParseValue(raw) != Err(InvalidKey) && ParseValue(raw) != Err(NoEquals)
  {
    if raw != "" {
      QuotesAreNotKeys(raw[1..], '"', true);
      QuotesAreNotKeys(raw[1..], '\'', false);
    }
  }

  lemma {:induction false} QuotesAreNotKeys(chars: string, quote: char, escapes: bool)
    ensures UnquoteFrom(chars, quote, escapes) != Err(InvalidKey) && UnquoteFrom(chars, quote, escapes) != Err(NoEquals)
    decreases |chars|
  {
    if chars != "" {
      QuotesAreNotKeys(chars[1..], quote, escapes);
      if |chars| > 1 {
        QuotesAreNotKeys(chars[2..], quote, escapes);
      }
    }
  }

  /** Blank lines, and those that begin with a `#`, say nothing. */
  lemma SilentLines(line: string)
    ensures ParseLine(line) == Nothing <==> Trim(line) == "" || Trim(line)[0] == '#'
  {
  }

  /**
   A line may say `export` first: what is left is read as the line without it
   would be, white space around it or not.  Any line that assigns assigns the
   same with an `export` in front, unless it says so already.
   */
  lemma ExportMakesNoDifference(line: string)
    requires Trim(line) != ""
    ensures ParseLine("export " + line) == ParseAssignment(Trim(line))
    ensures ParseLine(line).Assignment? && !StartsWith(Trim(line), "export ") ==>
              ParseLine("export " + line) == ParseLine(line)
  {
    var whole := EXPORT + line;
    TrimEitherEnd(line);
    TrimEndOfBoth(EXPORT, line);
    assert whole[0] == 'e' && Trim(whole) == EXPORT + TrimEnd(line);
    assert Trim(whole)[..|EXPORT|] == EXPORT && Trim(whole)[|EXPORT|..] == TrimEnd(line);
  }

  // ── Writing and reading back ──────────────────────────────────────────────

  function EscapedChar(c: char): string {
    match c
    case '\\' => "\\\\"
    case '"' => "\\\""
    case '\n' => "\\n"
    case '\r' => "\\r"
    case '\t' => "\\t"
    case other => [other]
  }

  function Escaped(value: string): string {
    if value == "" then "" else EscapedChar(value[0]) + Escaped(value[1..])
  }

  datatype Pair = Pair(key: string, value: string)

  function Written(p: Pair): string {
    p.key + "=" + ("\"" + Escaped(p.value) + "\"")
  }

  /** A key that can stand at the start of a line. */
  predicate Admissible(key: string) {
    IsKey(key) && '=' !in key && key[0] != '#'
  }

  lemma EscapedCharIsRead(c: char, tail: string)
    ensures UnquoteFrom(EscapedChar(c) + tail, '"', true) == Prepend([c], UnquoteFrom(tail, '"', true))
  {
  }

  /** An escaped value is read to its closing quote, whatever follows. */
  lemma {:induction false} EscapedIsRead(value: string, rest: string)
    ensures UnquoteFrom(Escaped(value) + ("\"" + rest), '"', true) == Ok(Quoted(value, rest))
  {
    if value == "" {
      assert "" + ("\"" + rest) == "\"" + rest && ("\"" + rest)[1..] == rest;
    } else {
      var e, tail := EscapedChar(value[0]), Escaped(value[1..]) + ("\"" + rest);
      assert Escaped(value) + ("\"" + rest) == e + tail;
      EscapedCharIsRead(value[0], tail);
      EscapedIsRead(value[1..], rest);
      assert [value[0]] + value[1..] == value;
    }
  }

  lemma {:induction false} EscapedIsPlain(value: string)
    ensures '\n' !in Escaped(value)
  {
    if value != "" {
      EscapedIsPlain(value[1..]);
    }
  }

  lemma QuotedIsRead(value: string)
    ensures ParseValue("\"" + Escaped(value) + "\"") == Ok(value)
  {
    var raw := "\"" + Escaped(value) + "\"";
    assert raw[1..] == Escaped(value) + ("\"" + "");
    EscapedIsRead(value, "");
  }

  lemma WrittenIsPlain(p: Pair)
    requires IsKey(p.key)
    ensures IsPlainLine(Written(p))
  {
    EscapedIsPlain(p.value);
    assert !IsWhite('\n') == false;
    assert '\n' !in p.key;
    assert Written(p)[|Written(p)| - 1] == '"';
  }

  lemma WrittenIsNotExport(p: Pair)
    requires Admissible(p.key)
    ensures !StartsWith(Written(p), EXPORT)
  {
    var line := Written(p);
    if |p.key| < 7 {
      assert '=' !in EXPORT && EXPORT[|p.key|] in EXPORT && line[|p.key|] == '=';
      DiffersAt(line, EXPORT, |p.key|);
    } else {
      assert line[6] == p.key[6] && p.key[6] in p.key;
      DiffersAt(line, EXPORT, 6);
    }
  }

  lemma WrittenIsAssigned(p: Pair)
    requires Admissible(p.key)
    ensures ParseAssignment(Written(p)) == Assignment(p.key, p.value)
  {
    var line, raw := Written(p), "\"" + Escaped(p.value) + "\"";
    assert line[..|p.key|] == p.key && line[|p.key| + 1..] == raw;
    IndexOfIs(line, '=', |p.key|);
    assert p.key[0] in p.key && p.key[|p.key| - 1] in p.key;
    TrimKeeps(p.key);
    assert TrimStart(raw) == raw;
    QuotedIsRead(p.value);
  }

  /** One written line is read back as the assignment it was. */
  lemma WrittenIsRead(p: Pair)
    requires Admissible(p.key)
    ensures ParseLine(Written(p)) == Assignment(p.key, p.value)
  {
    var line := Written(p);
    assert line[0] == p.key[0] && p.key[0] in p.key && line[|line| - 1] == '"';
    TrimKeeps(line);
    WrittenIsNotExport(p);
    WrittenIsAssigned(p);
  }

  function WrittenAll(pairs: seq<Pair>): seq<string> {
    seq(|pairs|, i requires 0 <= i < |pairs| => Written(pairs[i]))
  }

  function Render(pairs: seq<Pair>): string {
    Joined(WrittenAll(pairs))
  }

  /** What a list of assignments means: the last one for each key. */
  function Meaning(pairs: seq<Pair>, k: nat): map<string, string>
    requires k <= |pairs|
  {
    if k == 0 then map[] else Meaning(pairs, k - 1)[pairs[k - 1].key := pairs[k - 1].value]
  }

  function Assignments(pairs: seq<Pair>): seq<LineKind> {
    seq(|pairs|, i requires 0 <= i < |pairs| => Assignment(pairs[i].key, pairs[i].value))
  }

  lemma {:induction false} FoldOfAssignments(pairs: seq<Pair>, k: nat)
    requires k <= |pairs|
    ensures Fold(Assignments(pairs), k) == Ok(Meaning(pairs, k))
  {
    if k > 0 {
      FoldOfAssignments(pairs, k - 1);
    }
  }

  lemma WrittenLinesAreAssignments(pairs: seq<Pair>)
    requires forall p <- pairs :: Admissible(p.key)
    ensures Kinds(WrittenAll(pairs)) == Assignments(pairs)
  {
    var lines := WrittenAll(pairs);
    forall i | 0 <= i < |pairs| ensures Kinds(lines)[i] == Assignments(pairs)[i] {
      KindAt(lines, i);
      assert pairs[i] in pairs;
      WrittenIsRead(pairs[i]);
    }
  }

  lemma WrittenLinesArePlain(pairs: seq<Pair>)
    requires forall p <- pairs :: Admissible(p.key)
    ensures forall l <- WrittenAll(pairs) :: IsPlainLine(l)
  {
    forall l | l in WrittenAll(pairs) ensures IsPlainLine(l) {
      var i :| 0 <= i < |pairs| && Written(pairs[i]) == l;
      assert pairs[i] in pairs;
      WrittenIsPlain(pairs[i]);
    }
  }

  predicate BeginsWithMark(text: string) {
    text != "" && text[0] == '\U{FEFF}'
  }

  lemma RenderBegins(pairs: seq<Pair>)
    requires pairs != [] && pairs[0].key != ""
    ensures Render(pairs) != "" && Render(pairs)[0] == pairs[0].key[0]
    ensures Render(pairs)[1..] == Joined([Written(pairs[0])[1..]] + WrittenAll(pairs)[1..])
  {
    var lines := WrittenAll(pairs);
    assert Joined(lines) == lines[0] + "\n" + Joined(lines[1..]);
    var rest := [lines[0][1..]] + lines[1..];
    assert rest[1..] == lines[1..] && Joined(rest) == lines[0][1..] + "\n" + Joined(lines[1..]);
  }

  /**
   The round trip for any list of assignments, repeated keys included: with a
   byte-order mark in front always, and without one unless the first key
   begins with what would be taken for one.
   */
  lemma WrittenFilesAreReadBack(pairs: seq<Pair>)
    requires forall p <- pairs :: Admissible(p.key)
    ensures Parse(['\U{FEFF}'] + Render(pairs)) == Ok(Meaning(pairs, |pairs|))
    ensures !BeginsWithMark(Render(pairs)) ==> Parse(Render(pairs)) == Ok(Meaning(pairs, |pairs|))
  {
    WrittenLinesArePlain(pairs);
    LinesOfJoined(WrittenAll(pairs));
    WrittenLinesAreAssignments(pairs);
    FoldOfAssignments(pairs, |pairs|);
    assert ([BYTE_ORDER_MARK] + Render(pairs))[1..] == Render(pairs);
  }

  // ── A first key that begins with a mark ───────────────────────────────────

  /** Where the first equals sign is, or the end. */
  function Lead(s: string): (n: nat)
    ensures n <= |s| && '=' !in s[..n] && (n < |s| ==> s[n] == '=')
  {
    if s == "" || s[0] == '=' then 0
    else
      var rest := Lead(s[1..]);
      assert s[..rest + 1] == [s[0]] + s[1..][..rest];
      rest + 1
  }

  lemma {:induction false} LeadIs(s: string, n: nat)
    requires n < |s| && '=' !in s[..n] && s[n] == '='
    ensures Lead(s) == n
  {
    if n > 0 {
      assert s[0] == s[..n][0] && s[1..][..n - 1] == s[..n][1..];
      LeadIs(s[1..], n - 1);
    }
  }

  lemma {:induction false} LeadIsAtMost(s: string, n: nat)
    requires n < |s| && s[n] == '='
    ensures Lead(s) <= n
  {
    if n > 0 {
      LeadIsAtMost(s[1..], n - 1);
    }
  }

  lemma {:induction false} LeadIsAtLeast(s: string, n: nat)
    requires n <= |s| && '=' !in s[..n]
    ensures n <= Lead(s)
  {
    if n > 0 {
      assert s[0] == s[..n][0] && s[1..][..n - 1] == s[..n][1..];
      LeadIsAtLeast(s[1..], n - 1);
    }
  }

  lemma LeadIsIndexOf(s: string)
    ensures IndexOf(s, '=').Some? ==> IndexOf(s, '=').value == Lead(s)
  {
    var at := IndexOf(s, '=');
    if at.Some? {
      LeadIs(s, at.value);
    }
  }

  lemma LeadOfTrimmed(s: string)
    ensures Lead(TrimStart(s)) <= Lead(s)
    ensures Lead(TrimEnd(s)) <= Lead(s)
  {
    LeadOfTrimmedStart(s);
    LeadOfTrimmedEnd(s);
  }

  lemma {:induction false} LeadOfTrimmedStart(s: string)
    ensures Lead(TrimStart(s)) <= Lead(s)
  {
    if s != "" && IsWhite(s[0]) {
      LeadOfTrimmedStart(s[1..]);
      assert s[0] != '=';
    }
  }

  lemma {:induction false} LeadOfTrimmedEnd(s: string)
    ensures Lead(TrimEnd(s)) <= Lead(s)
    decreases |s|
  {
    if s != "" && IsWhite(s[|s| - 1]) {
      LeadOfPrefix(s, |s| - 1);
      LeadOfTrimmedEnd(s[..|s| - 1]);
    }
  }

  lemma LeadOfPrefix(s: string, n: nat)
    requires n <= |s|
    ensures Lead(s[..n]) <= Lead(s)
  {
    if Lead(s) < n {
      LeadIsAtMost(s[..n], Lead(s));
    }
  }

  lemma {:induction false} LeadOfSuffix(s: string, n: nat)
    requires n <= Lead(s)
    ensures Lead(s[n..]) <= Lead(s)
  {
    if n > 0 {
      LeadOfSuffix(s[1..], n - 1);
      assert s[1..][n - 1..] == s[n..];
    }
  }

  lemma {:induction false} TrimShortens(s: string)
    ensures |TrimStart(s)| <= |s| && |TrimEnd(s)| <= |s|
    decreases |s|
  {
    if s != "" {
      TrimShortens(s[1..]);
      TrimShortens(s[..|s| - 1]);
    }
  }

  /** The key a line assigns is no longer than what stands before its first equals sign. */
  lemma KeysStandBeforeEquals(line: string)
    requires ParseLine(line).Assignment?
    ensures |ParseLine(line).key| <= Lead(line)
  {
    var trimmed := Trim(line);
    LeadOfTrimmed(line);
    LeadOfTrimmed(TrimStart(line));
    var bare := AfterExport(trimmed);
    if StartsWith(trimmed, EXPORT) {
      ExportHasNoEquals(trimmed);
      LeadOfSuffix(trimmed, |EXPORT|);
      LeadOfTrimmed(trimmed[|EXPORT|..]);
    }
    LeadIsIndexOf(bare);
    TrimShortens(bare[..Lead(bare)]);
    TrimShortens(TrimStart(bare[..Lead(bare)]));
  }

  lemma ExportHasNoEquals(s: string)
    requires StartsWith(s, EXPORT)
    ensures |EXPORT| <= Lead(s)
  {
    LeadIsAtLeast(s, |EXPORT|);
  }

  lemma WrittenWithoutItsStart(p: Pair)
    requires Admissible(p.key)
    ensures IsPlainLine(Written(p)[1..])
    ensures !Assigns(ParseLine(Written(p)[1..]), p.key)
  {
    var line := Written(p);
    WrittenIsPlain(p);
    assert p.key[0] in p.key && line[|line| - 1] == '"' && line[1..][|line| - 2] == '"';
    assert line[1..][|p.key| - 1] == line[|p.key|] == '=';
    LeadIsAtMost(line[1..], |p.key| - 1);
    if ParseLine(line[1..]).Assignment? {
      KeysStandBeforeEquals(line[1..]);
    }
  }

  function PairsOf(keys: seq<string>, m: map<string, string>): seq<Pair>
    requires forall k <- keys :: k in m
  {
    seq(|keys|, i requires 0 <= i < |keys| => assert keys[i] in keys; Pair(keys[i], m[keys[i]]))
  }

  lemma {:induction false} MeaningOfPairs(keys: seq<string>, m: map<string, string>, n: nat)
    requires n <= |keys| && forall k <- keys :: k in m
    ensures forall k :: k in Meaning(PairsOf(keys, m), n) <==> k in keys[..n]
    ensures forall k <- keys[..n] :: Meaning(PairsOf(keys, m), n)[k] == m[k]
  {
    if n > 0 {
      MeaningOfPairs(keys, m, n - 1);
      assert keys[..n] == keys[..n - 1] + [keys[n - 1]];
    }
  }

  lemma PairsAreAdmissible(keys: seq<string>, m: map<string, string>)
    requires forall k <- keys :: k in m
    requires forall k <- keys :: Admissible(k)
    ensures forall p <- PairsOf(keys, m) :: Admissible(p.key)
  {
  }

  predicate DistinctKeys(keys: seq<string>) {
    forall i, j :: 0 <= i < j < |keys| ==> keys[i] != keys[j]
  }

  /** The lines that are read when the mark at the start of the first key is taken away. */
  lemma MarkTakenFromTheFirstKey(pairs: seq<Pair>)
    requires pairs != [] && forall p <- pairs :: Admissible(p.key)
    requires BeginsWithMark(Render(pairs))
    ensures KindsOf(Render(pairs)) == [ParseLine(Written(pairs[0])[1..])] + Assignments(pairs[1..])
  {
    var lines := [Written(pairs[0])[1..]] + WrittenAll(pairs)[1..];
    assert pairs[0] in pairs;
    RenderBegins(pairs);
    WrittenLinesArePlain(pairs);
    WrittenWithoutItsStart(pairs[0]);
    forall l | l in lines ensures IsPlainLine(l) {
      assert l == lines[0] || l in WrittenAll(pairs);
    }
    LinesOfJoined(lines);
    RestIsAssigned(pairs);
    assert lines[1..] == WrittenAll(pairs)[1..];
  }

  lemma RestIsAssigned(pairs: seq<Pair>)
    requires pairs != [] && forall p <- pairs :: Admissible(p.key)
    ensures Kinds(WrittenAll(pairs)[1..]) == Assignments(pairs[1..])
  {
    assert WrittenAll(pairs)[1..] == WrittenAll(pairs[1..]);
    assert forall p <- pairs[1..] :: p in pairs;
    WrittenLinesAreAssignments(pairs[1..]);
  }

  /** No line is left that assigns the first key. */
  lemma TheMarkedKeyIsLost(pairs: seq<Pair>)
    requires pairs != [] && forall p <- pairs :: Admissible(p.key)
    requires forall i :: 0 < i < |pairs| ==> pairs[i].key != pairs[0].key
    requires BeginsWithMark(Render(pairs))
    ensures Parse(Render(pairs)).Ok? ==> pairs[0].key !in Parse(Render(pairs)).value
  {
    var kinds := KindsOf(Render(pairs));
    assert pairs[0] in pairs;
    MarkTakenFromTheFirstKey(pairs);
    WrittenWithoutItsStart(pairs[0]);
    if Parse(Render(pairs)).Ok? {
      assert forall j :: 0 < j < |kinds| ==> kinds[j] == Assignments(pairs[1..])[j - 1];
      assert NoneAssigns(kinds, |kinds|, pairs[0].key);
      FoldLaterWins(kinds, |kinds|, pairs[0].key);
    }
  }

  lemma PairsMean(keys: seq<string>, m: map<string, string>)
    requires forall k :: k in keys <==> k in m
    ensures Meaning(PairsOf(keys, m), |keys|) == m
  {
    MeaningOfPairs(keys, m, |keys|);
    assert keys[..|keys|] == keys;
  }

  /**
   Any environment with admissible keys, its keys written once each in any
   order, is read back as it was, exactly unless the first key begins with a
   byte-order mark.
   */
  lemma EnvironmentsRoundTrip(m: map<string, string>, keys: seq<string>)
    requires forall k :: k in keys <==> k in m
    requires DistinctKeys(keys) && forall k <- keys :: Admissible(k)
    ensures Parse(Render(PairsOf(keys, m))) == Ok(m) <==> keys == [] || !BeginsWithMark(keys[0])
  {
    var pairs := PairsOf(keys, m);
    PairsAreAdmissible(keys, m);
    WrittenFilesAreReadBack(pairs);
    PairsMean(keys, m);
    if keys != [] {
      assert keys[0] in keys;
      RenderBegins(pairs);
      if BeginsWithMark(keys[0]) {
        TheMarkedKeyIsLost(pairs);
      }
    }
  }

  /** Written behind a mark every such environment is read back, whatever its keys and however often they are written. */
  lemma MarkedEnvironmentsRoundTrip(m: map<string, string>, keys: seq<string>)
    requires forall k :: k in keys <==> k in m
    requires forall k <- keys :: Admissible(k)
    ensures Parse(['\U{FEFF}'] + Render(PairsOf(keys, m))) == Ok(m)
  {
    PairsAreAdmissible(keys, m);
    WrittenFilesAreReadBack(PairsOf(keys, m));
    PairsMean(keys, m);
  }

  /** What is lost: a mark at the start of the first key is taken for the file's own. */
  lemma AMarkIsTakenForTheFiles(key: string, value: string)
    requires Admissible(key) && !BeginsWithMark(key)
    ensures Parse(Render([Pair(['\U{FEFF}'] + key, value)])) == Ok(map[key := value])
  {
    var marked, plain := [Pair([BYTE_ORDER_MARK] + key, value)], [Pair(key, value)];
    var line := Written(marked[0]);
    assert line == [BYTE_ORDER_MARK] + Written(plain[0]) && line[1..] == Written(plain[0]);
    assert WrittenAll(marked)[1..] == [] && WrittenAll(plain)[1..] == [];
    RenderBegins(marked);
    assert Render(marked)[1..] == Joined([line[1..]] + []) && [line[1..]] + [] == [line[1..]];
    assert WrittenAll(plain) == [Written(plain[0])];
    RenderBegins(plain);
    WrittenFilesAreReadBack(plain);
    assert Meaning(plain, 1) == map[key := value];
  }
}
