/** The language of `${VAR}` references. */
module Subst {
  import opened Prelude

  type Vars = map<string, string>

  datatype Malformation = MissingBrace | NoName | UnsupportedForm

  datatype SubstError = Undefined(name: string) | Malformed(why: Malformation, text: string)

  type Expanded = Result<string, SubstError>

  const OPENER := "${"

  // ── Scanning ──────────────────────────────────────────────────────────────

  predicate OpensAt(s: string, i: nat) {
    i + 1 < |s| && s[i] == '$' && s[i + 1] == '{'
  }

  /** The first place a `${` begins. */
  function FindOpener(s: string): (at: Option<nat>)
    ensures at.Some? ==> OpensAt(s, at.value)
  {
    if |s| < 2 then None
    else if OpensAt(s, 0) then Some(0)
    else
      match FindOpener(s[1..])
      case None => None
      case Some(k) => assert OpensAt(s[1..], k); Some(k + 1)
  }

  ghost predicate NoneBefore(s: string, n: nat) {
    forall i: nat :: i < n ==> !OpensAt(s, i)
  }

  lemma {:induction false} FoundIsFirst(s: string)
    ensures NoneBefore(s, if FindOpener(s).Some? then FindOpener(s).value else |s|)
  {
    if |s| >= 2 && !OpensAt(s, 0) {
      FoundIsFirst(s[1..]);
      assert forall i: nat :: i > 0 && OpensAt(s, i) ==> OpensAt(s[1..], i - 1);
    }
  }

  lemma OpenerIsFirst(s: string, at: nat)
    requires OpensAt(s, at) && NoneBefore(s, at)
    ensures FindOpener(s) == Some(at)
  {
    FoundIsFirst(s);
  }

  /** The index of the closing brace, scanning from `i` with `depth` braces open. */
  function CloseFrom(s: string, i: nat, depth: nat): Option<nat>
    requires depth > 0
    decreases |s| - i
  {
    if i >= |s| then None
    else if s[i] == '{' then CloseFrom(s, i + 1, depth + 1)
    else if s[i] == '}' then
      if depth == 1 then Some(i) else CloseFrom(s, i + 1, depth - 1)
    else if s[i] == '$' && i + 1 < |s| && s[i + 1] == '$' then CloseFrom(s, i + 2, depth)
    else CloseFrom(s, i + 1, depth)
  }

  /** Braces opened minus braces closed. */
  function Net(s: string): int {
    if s == "" then 0
    else Net(s[..|s| - 1]) + (if s[|s| - 1] == '{' then 1 else if s[|s| - 1] == '}' then -1 else 0)
  }

  /** Nowhere up to `n` are more braces closed than were opened. */
  predicate NeverBelow(s: string, n: nat)
    requires n <= |s|
  {
    forall j :: 0 <= j <= n ==> Net(s[..j]) >= 0
  }

  /** `k` is where the brace that is already open is first balanced. */
  predicate FirstBalance(s: string, k: nat) {
    k < |s| && Net(s[..k + 1]) == -1 && NeverBelow(s, k)
  }

  lemma NetStep(s: string, i: nat)
    requires i < |s|
    ensures Net(s[..i + 1]) == Net(s[..i]) + (if s[i] == '{' then 1 else if s[i] == '}' then -1 else 0)
  {
    assert s[..i + 1][..i] == s[..i];
  }

  lemma {:induction false} NetConcat(a: string, b: string)
    ensures Net(a + b) == Net(a) + Net(b)
    decreases |b|
  {
    if b == "" {
      assert a + b == a;
    } else {
      assert (a + b)[..|a + b| - 1] == a + b[..|b| - 1];
      NetConcat(a, b[..|b| - 1]);
    }
  }

  lemma NeverBelowNext(s: string, i: nat)
    requires i < |s| && NeverBelow(s, i) && Net(s[..i + 1]) >= 0
    ensures NeverBelow(s, i + 1)
  {
  }

  /** The scan stops at the first balancing brace, dollars or not: skipping `$$` hides no brace. */
  lemma {:induction false} CloseFromBalances(s: string, i: nat)
    requires i <= |s| && NeverBelow(s, i)
    ensures
      var close := CloseFrom(s, i, Net(s[..i]) + 1);
      && (close.Some? ==> FirstBalance(s, close.value))
      && (close.None? ==> NeverBelow(s, |s|))
    decreases |s| - i
  {
    if i < |s| {
      NetStep(s, i);
      if s[i] == '}' && Net(s[..i]) == 0 {
        assert FirstBalance(s, i);
      } else if s[i] == '$' && i + 1 < |s| && s[i + 1] == '$' {
        NetStep(s, i + 1);
        NeverBelowNext(s, i);
        NeverBelowNext(s, i + 1);
        CloseFromBalances(s, i + 2);
      } else {
        NeverBelowNext(s, i);
        CloseFromBalances(s, i + 1);
      }
    }
  }

  lemma BalanceIsUnique(s: string, k: nat, m: nat)
    requires FirstBalance(s, k) && FirstBalance(s, m)
    ensures k == m
  {
  }

  /** Where `${` ends, given what follows it. */
  function SplitBraced(s: string): Option<nat> {
    CloseFrom(s, 0, 1)
  }

  lemma SplitIsInside(s: string)
    ensures SplitBraced(s).Some? ==> SplitBraced(s).value < |s|
  {
    CloseFromBalances(s, 0);
  }

  /**
   The reference ends at the first brace that balances the opening one, and has
   no end exactly when no brace does.  A `$$` in front of a brace makes no
   difference to this count.
   */
  lemma SplitIsFirstBalance(s: string, k: nat)
    ensures SplitBraced(s) == Some(k) <==> FirstBalance(s, k)
    ensures SplitBraced(s).None? ==> !FirstBalance(s, k)
  {
    CloseFromBalances(s, 0);
    var close := SplitBraced(s);
    if close.Some? && FirstBalance(s, k) {
      BalanceIsUnique(s, k, close.value);
    }
  }

  predicate Alphabetic(c: char) {
    'a' <= c <= 'z' || 'A' <= c <= 'Z'
  }

  predicate NameChar(c: char, first: bool) {
    Alphabetic(c) || c == '_' || (!first && '0' <= c <= '9')
  }

  /** How many characters at the start form a variable name. */
  function NameLength(s: string): (n: nat)
    ensures n <= |s|
  {
    NameLengthFrom(s, 0)
  }

  function NameLengthFrom(s: string, i: nat): (n: nat)
    requires i <= |s|
    ensures i <= n <= |s|
    decreases |s| - i
  {
    if i < |s| && NameChar(s[i], i == 0) then NameLengthFrom(s, i + 1) else i
  }

  predicate IsName(s: string) {
    s != "" && forall i :: 0 <= i < |s| ==> NameChar(s[i], i == 0)
  }

  // ── Expansion ─────────────────────────────────────────────────────────────

  function Prefixed(text: string, r: Expanded): Expanded {
    match r
    case Ok(rest) => Ok(text + rest)
    case Err(e) => Err(e)
  }

  /** The value of the first, then the rest; the first failure wins. */
  function Joined(value: Expanded, rest: Expanded): Expanded {
    match value
    case Ok(text) => Prefixed(text, rest)
    case Err(e) => Err(e)
  }

  function Expand(input: string, vars: Vars): Expanded
    decreases |input|
  {
    match FindOpener(input)
    case None => Ok(input)
    case Some(at) =>
      var after := input[at + 2..];
      if at > 0 && input[at - 1] == '$' then Prefixed(input[..at - 1] + OPENER, Expand(after, vars))
      else
        match SplitBraced(after)
        case None => Err(Malformed(MissingBrace, after))
        case Some(close) =>
          if close < |after|
          then Prefixed(input[..at], Joined(Resolve(after[..close], vars), Expand(after[close + 1..], vars)))
          else Err(Malformed(MissingBrace, after))
  }

  datatype Mode = Required | IfUnsetOrEmpty | IfUnset

  /** What follows the name: how the reference may be absent, and the default's text. */
  function Modifier(text: string): Option<(Mode, string)> {
    if text == "" then Some((Required, ""))
    else if |text| >= 2 && text[0] == ':' && text[1] == '-' then Some((IfUnsetOrEmpty, text[2..]))
    else if text[0] == '-' then Some((IfUnset, text[1..]))
    else None
  }

  /** What the text between the braces stands for. */
  function Resolve(body: string, vars: Vars): Expanded
    decreases |body|
  {
    var n := NameLength(body);
    var name := body[..n];
    if name == "" then Err(Malformed(NoName, body))
    else
      match Modifier(body[n..])
      case None => Err(Malformed(UnsupportedForm, body))
      case Some((mode, default)) =>
        if mode.Required? then if name in vars then Ok(vars[name]) else Err(Undefined(name))
        else if name in vars && (vars[name] != "" || !mode.IfUnsetOrEmpty?) then Ok(vars[name])
        else Expand(default, vars)
  }

  // ── The code ──────────────────────────────────────────────────────────────

  /** Find the closing brace with a depth counter. */
  method ScanBraced(s: string) returns (close: Option<nat>)
    ensures close == SplitBraced(s)
  {
    var depth: nat := 1;
    var i := 0;
    while i < |s|
      invariant i <= |s| && depth > 0
      invariant CloseFrom(s, i, depth) == SplitBraced(s)
    {
      if s[i] == '{' {
        depth := depth + 1;
      } else if s[i] == '}' {
        if depth == 1 {
          return Some(i);
        }
        depth := depth - 1;
      } else if s[i] == '$' && i + 1 < |s| && s[i + 1] == '$' {
        i := i + 1;
      }
      i := i + 1;
    }
    return None;
  }

  method ScanName(s: string) returns (length: nat)
    ensures length == NameLength(s)
  {
    length := 0;
    while length < |s| && NameChar(s[length], length == 0)
      invariant length <= |s| && NameLengthFrom(s, length) == NameLength(s)
    {
      length := length + 1;
    }
  }

  /** The copying loop. */
  method ExpandValue(input: string, vars: Vars) returns (r: Expanded)
    ensures r == Expand(input, vars)
    decreases |input|
  {
    var out, rest := "", input;
    PrefixedNothing(Expand(input, vars));
    while true
      invariant |rest| <= |input|
      invariant Expand(input, vars) == Prefixed(out, Expand(rest, vars))
      decreases |rest|
    {
      var at := FindOpener(rest);
      if at.None? {
        return Ok(out + rest);
      }
      var before, after := rest[..at.value], rest[at.value + 2..];
      if |before| > 0 && before[|before| - 1] == '$' {
        EscapeStep(out, rest, at.value, vars);
        out := out + before[..|before| - 1] + OPENER;
        rest := after;
        continue;
      }
      ReferenceStep(out, rest, at.value, vars);
      var taken := TakeReference(after, vars);
      if taken.Err? {
        return Err(taken.error);
      }
      out := out + before + taken.value.0;
      rest := taken.value.1;
    }
  }

  /** Behind a `${`: the value of the reference and what follows it. */
  function Taken(after: string, vars: Vars): (r: Result<(string, string), SubstError>)
    ensures r.Ok? ==> |r.value.1| < |after|
  {
    match SplitBraced(after)
    case None => Err(Malformed(MissingBrace, after))
    case Some(close) =>
      if close >= |after| then Err(Malformed(MissingBrace, after))
      else
        match Resolve(after[..close], vars)
        case Ok(value) => Ok((value, after[close + 1..]))
        case Err(e) => Err(e)
  }

  method TakeReference(after: string, vars: Vars) returns (r: Result<(string, string), SubstError>)
    ensures r == Taken(after, vars)
    decreases |after|
  {
    var close := ScanBraced(after);
    SplitIsInside(after);
    if close.None? {
      return Err(Malformed(MissingBrace, after));
    }
    var value := ResolveReference(after[..close.value], vars);
    match value
    case Ok(text) => r := Ok((text, after[close.value + 1..]));
    case Err(e) => r := Err(e);
  }

  /** One turn of the loop over an escaped opener. */
  lemma EscapeStep(out: string, rest: string, at: nat, vars: Vars)
    requires FindOpener(rest) == Some(at) && at > 0 && rest[at - 1] == '$'
    ensures Prefixed(out, Expand(rest, vars))
         == Prefixed(out + rest[..at][..at - 1] + OPENER, Expand(rest[at + 2..], vars))
  {
    assert rest[..at][..at - 1] == rest[..at - 1];
    PrefixedTwice(out, rest[..at - 1] + OPENER, Expand(rest[at + 2..], vars));
    assert out + (rest[..at - 1] + OPENER) == out + rest[..at - 1] + OPENER;
  }

  lemma ExpandAtReference(rest: string, at: nat, vars: Vars)
    requires FindOpener(rest) == Some(at) && (at > 0 ==> rest[at - 1] != '$')
    ensures
      var taken := Taken(rest[at + 2..], vars);
      Expand(rest, vars) == if taken.Err? then Err(taken.error)
                            else Prefixed(rest[..at], Prefixed(taken.value.0, Expand(taken.value.1, vars)))
  {
  }

  lemma PrefixedThrice(a: string, b: string, c: string, r: Expanded)
    ensures Prefixed(a, Prefixed(b, Prefixed(c, r))) == Prefixed(a + b + c, r)
  {
    PrefixedTwice(b, c, r);
    PrefixedTwice(a, b + c, r);
    assert a + (b + c) == a + b + c;
  }

  /** One turn of the loop over a reference. */
  lemma ReferenceStep(out: string, rest: string, at: nat, vars: Vars)
    requires FindOpener(rest) == Some(at) && (at > 0 ==> rest[at - 1] != '$')
    ensures
      var taken := Taken(rest[at + 2..], vars);
      Prefixed(out, Expand(rest, vars)) ==
        if taken.Err? then Err(taken.error)
        else Prefixed(out + rest[..at] + taken.value.0, Expand(taken.value.1, vars))
  {
    var taken := Taken(rest[at + 2..], vars);
    ExpandAtReference(rest, at, vars);
    if taken.Ok? {
      PrefixedThrice(out, rest[..at], taken.value.0, Expand(taken.value.1, vars));
    }
  }


  method ResolveReference(body: string, vars: Vars) returns (r: Expanded)
    ensures r == Resolve(body, vars)
    decreases |body|
  {
    var n := ScanName(body);
    var name := body[..n];
    if name == "" {
      return Err(Malformed(NoName, body));
    }
    var modifier := Modifier(body[n..]);
    if modifier.None? {
      return Err(Malformed(UnsupportedForm, body));
    }
    var (mode, default) := modifier.value;
    if mode.Required? {
      return if name in vars then Ok(vars[name]) else Err(Undefined(name));
    }
    if name in vars && (vars[name] != "" || !mode.IfUnsetOrEmpty?) {
      return Ok(vars[name]);
    }
    r := ExpandValue(default, vars);
  }

  /** Text after a name that neither goes on with it nor says what its absence means. */
  predicate IsNoModifier(text: string) {
    text != "" && !NameChar(text[0], false) && text[0] != '-' && (text[0] == ':' ==> |text| == 1 || text[1] != '-')
  }

  lemma NameThenText(name: string, text: string, vars: Vars)
    requires IsName(name) && (text == "" || !NameChar(text[0], false))
    ensures
      var body, modifier := name + text, Modifier(text);
      Resolve(body, vars) ==
        if modifier.None? then Err(Malformed(UnsupportedForm, body))
        else if modifier.value.0.Required? then if name in vars then Ok(vars[name]) else Err(Undefined(name))
        else if name in vars && (vars[name] != "" || !modifier.value.0.IfUnsetOrEmpty?) then Ok(vars[name])
        else Expand(modifier.value.1, vars)
  {
    NameIsSplitOff(name, text);
  }

  lemma DashMeans(name: string, default: string, vars: Vars)
    requires IsName(name)
    ensures Resolve(name + "-" + default, vars) == if name in vars then Ok(vars[name]) else Expand(default, vars)
  {
    var text := "-" + default;
    assert name + "-" + default == name + text && text[1..] == default;
    NameThenText(name, text, vars);
  }

  lemma ColonDashMeans(name: string, default: string, vars: Vars)
    requires IsName(name)
    ensures Resolve(name + ":-" + default, vars) ==
              if name in vars && vars[name] != "" then Ok(vars[name]) else Expand(default, vars)
  {
    var text := ":-" + default;
    assert name + ":-" + default == name + text && text[2..] == default;
    NameThenText(name, text, vars);
  }

  lemma NameAloneMeans(name: string, vars: Vars)
    requires IsName(name)
    ensures Resolve(name, vars) == if name in vars then Ok(vars[name]) else Err(Undefined(name))
  {
    NameThenText(name, "", vars);
    assert name + "" == name;
  }

  lemma OtherTextIsRefused(name: string, text: string, vars: Vars)
    requires IsName(name) && IsNoModifier(text)
    ensures Resolve(name + text, vars) == Err(Malformed(UnsupportedForm, name + text))
  {
    NameThenText(name, text, vars);
  }

  lemma NamelessMeans(body: string, vars: Vars)
    ensures body == "" || !NameChar(body[0], true) ==> Resolve(body, vars) == Err(Malformed(NoName, body))
  {
    assert body[..0] == "";
  }

  /**
   The forms of a reference: a bare name has to be defined; `-` gives a default
   to an undefined one and `:-` to an empty one too, and only then is it looked
   at; any other text after the name is refused.
   */
  lemma ReferencesAreAsInTheShell(name: string, text: string, vars: Vars)
    requires IsName(name)
    ensures Resolve(name, vars) == if name in vars then Ok(vars[name]) else Err(Undefined(name))
    ensures Resolve(name + "-" + text, vars) == if name in vars then Ok(vars[name]) else Expand(text, vars)
    ensures Resolve(name + ":-" + text, vars) ==
              if name in vars && vars[name] != "" then Ok(vars[name]) else Expand(text, vars)
    ensures IsNoModifier(text) ==> Resolve(name + text, vars) == Err(Malformed(UnsupportedForm, name + text))
    ensures text == "" || !NameChar(text[0], true) ==> Resolve(text, vars) == Err(Malformed(NoName, text))
  {
    NamelessMeans(text, vars);
    NameAloneMeans(name, vars);
    DashMeans(name, text, vars);
    ColonDashMeans(name, text, vars);
    if IsNoModifier(text) {
      OtherTextIsRefused(name, text, vars);
    }
  }

  lemma PrefixedNothing(r: Expanded)
    ensures Prefixed("", r) == r
  {
    if r.Ok? {
      assert "" + r.value == r.value;
    }
  }

  lemma PrefixedTwice(a: string, b: string, r: Expanded)
    ensures Prefixed(a, Prefixed(b, r)) == Prefixed(a + b, r)
  {
    if r.Ok? {
      assert a + (b + r.value) == a + b + r.value;
    }
  }

  /** The failures among the first `k` values, each with its place. */
  function Failures(values: seq<string>, k: nat, vars: Vars): seq<(nat, SubstError)>
    requires k <= |values|
  {
    if k == 0 then []
    else
      var last := Expand(values[k - 1], vars);
      Failures(values, k - 1, vars) + (if last.Err? then [(k - 1, last.error)] else [])
  }

  /** What a value is after a pass: expanded, or left as written. */
  function Settled(text: string, vars: Vars): string {
    var r := Expand(text, vars);
    if r.Ok? then r.value else text
  }

  /** Expand a list in place: what cannot be expanded stays as written and is reported, all of it at once. */
  method ExpandList(values: array<string>, vars: Vars) returns (errors: seq<(nat, SubstError)>)
    modifies values
    ensures forall i :: 0 <= i < values.Length ==> values[i] == Settled(old(values[i]), vars)
    ensures errors == Failures(old(values[..]), values.Length, vars)
  {
    errors := [];
    ghost var was := values[..];
    for k := 0 to values.Length
      invariant forall i :: 0 <= i < k ==> values[i] == Settled(was[i], vars)
      invariant forall i :: k <= i < values.Length ==> values[i] == was[i]
      invariant errors == Failures(was, k, vars)
    {
      var r := ExpandValue(values[k], vars);
      match r
      case Ok(value) => values[k] := value;
      case Err(e) => errors := errors + [(k, e)];
    }
  }

  // ── What the language means ───────────────────────────────────────────────

  /** A value as its author thinks of it. */
  datatype Piece =
    | Literal(text: string)
    | EscapedOpener
    | Reference(name: string, mode: Mode, default: seq<Piece>)

  type Template = seq<Piece>

  function Print(t: Template): string
    decreases t, 0
  {
    if t == [] then "" else PrintPiece(t[0]) + Print(t[1..])
  }

  function PrintPiece(p: Piece): string
    decreases p, 0
  {
    match p
    case Literal(text) => text
    case EscapedOpener => "$" + OPENER
    case Reference(name, mode, default) => OPENER + PrintBody(name, mode, default) + "}"
  }

  function PrintBody(name: string, mode: Mode, default: Template): string
    decreases default, 1
  {
    match mode
    case Required => name
    case IfUnsetOrEmpty => name + ":-" + Print(default)
    case IfUnset => name + "-" + Print(default)
  }

  function Evaluate(t: Template, vars: Vars): Expanded
    decreases t
  {
    if t == [] then Ok("") else Joined(EvaluatePiece(t[0], vars), Evaluate(t[1..], vars))
  }

  function EvaluatePiece(p: Piece, vars: Vars): Expanded
    decreases p
  {
    match p
    case Literal(text) => Ok(text)
    case EscapedOpener => Ok(OPENER)
    case Reference(name, mode, default) =>
      if name in vars && (vars[name] != "" || !mode.IfUnsetOrEmpty?) then Ok(vars[name])
      else if mode.Required? then Err(Undefined(name))
      else Evaluate(default, vars)
  }

  /** Never closes more than it opened, and closes everything. */
  predicate Balanced(s: string) {
    Net(s) == 0 && forall j :: 0 <= j <= |s| ==> Net(s[..j]) >= 0
  }

  predicate WellFormedPiece(p: Piece)
    decreases p
  {
    match p
    case Literal(text) => FindOpener(text).None?
    case EscapedOpener => true
    case Reference(name, mode, default) =>
      IsName(name) && (mode.Required? ==> default == []) && WellFormed(default) && Balanced(Print(default))
  }

  /** A literal `$` right before a reference would escape it, and two literals could join to a `${`. */
  predicate WellFormed(t: Template)
    decreases t
  {
    t == [] ||
    (&& WellFormedPiece(t[0]) && WellFormed(t[1..])
     && (|t| > 1 && t[0].Literal? ==>
           !t[1].Literal? && (t[1].Reference? ==> !EndsInDollar(t[0].text))))
  }

  predicate EndsInDollar(s: string) {
    s != "" && s[|s| - 1] == '$'
  }

  /** An escaped opener is one, and what follows it is expanded on its own. */
  lemma EscapedOpenerIsCopied(x: string, s: string, vars: Vars)
    requires FindOpener(x).None?
    ensures Expand(x + ("$" + OPENER + s), vars) == Prefixed(x + OPENER, Expand(s, vars))
  {
    var whole := x + ("$" + OPENER + s);
    assert whole == x + "$" + OPENER + s;
    FoundIsFirst(x);
    forall i: nat | i < |x| + 1 ensures !OpensAt(whole, i) {
      assert i + 1 < |x| ==> whole[i] == x[i] && whole[i + 1] == x[i + 1];
      assert i < |x| ==> !OpensAt(x, i);
    }
    OpenerIsFirst(whole, |x| + 1);
    assert whole[|x| + 1 + 2..] == s && whole[..|x|] == x;
  }

  lemma OpenerAfterText(x: string, s: string)
    requires FindOpener(x).None? && OpensAt(s, 0) && !EndsInDollar(x)
    ensures FindOpener(x + s) == Some(|x|) && FindOpener(s) == Some(0)
  {
    var whole := x + s;
    FoundIsFirst(x);
    forall i: nat | i < |x| ensures !OpensAt(whole, i) {
      assert i + 1 < |x| ==> whole[i] == x[i] && whole[i + 1] == x[i + 1];
      assert !OpensAt(x, i);
    }
    OpenerIsFirst(whole, |x|);
    OpenerIsFirst(s, 0);
  }

  /** Text before a reference is copied, unless its last character is a dollar. */
  lemma LiteralIsCopied(x: string, s: string, vars: Vars)
    requires FindOpener(x).None? && OpensAt(s, 0) && !EndsInDollar(x)
    ensures Expand(x + s, vars) == Prefixed(x, Expand(s, vars))
  {
    var whole := x + s;
    OpenerAfterText(x, s);
    assert whole[|x| + 2..] == s[2..] && whole[..|x|] == x && s[..0] == "";
    assert |x| > 0 ==> whole[|x| - 1] == x[|x| - 1];
    var close := SplitBraced(s[2..]);
    if close.Some? && close.value < |s[2..]| {
      PrefixedNothing(Joined(Resolve(s[2..][..close.value], vars), Expand(s[2..][close.value + 1..], vars)));
    }
  }

  /** A reference with a balanced body ends where it should. */
  lemma ReferenceIsSplit(body: string, rest: string, vars: Vars)
    requires Balanced(body)
    ensures Expand(OPENER + body + "}" + rest, vars) == Joined(Resolve(body, vars), Expand(rest, vars))
  {
    var s := OPENER + body + "}" + rest;
    OpenerIsFirst(s, 0);
    var after := s[2..];
    assert after == body + "}" + rest;
    BalancedBodyIsFound(body, rest);
    assert after[..|body|] == body && after[|body| + 1..] == rest && s[..0] == "";
    PrefixedNothing(Joined(Resolve(body, vars), Expand(rest, vars)));
  }

  lemma BalancedBodyIsFound(body: string, rest: string)
    requires Balanced(body)
    ensures SplitBraced(body + "}" + rest) == Some(|body|)
  {
    var after := body + "}" + rest;
    forall j | 0 <= j <= |body| ensures Net(after[..j]) >= 0 {
      assert after[..j] == body[..j];
    }
    assert after[..|body|] == body == body[..|body|];
    NetStep(after, |body|);
    assert FirstBalance(after, |body|);
    SplitIsFirstBalance(after, |body|);
  }

  /** And only a balanced body is: an unbalanced one ends early or takes in what follows the reference. */
  lemma BodyIsFoundExactlyWhen(body: string, rest: string)
    ensures SplitBraced(body + "}" + rest) == Some(|body|) <==> Balanced(body)
  {
    if Balanced(body) {
      BalancedBodyIsFound(body, rest);
    }
    var after := body + "}" + rest;
    if SplitBraced(after) == Some(|body|) {
      SplitIsFirstBalance(after, |body|);
      NetStep(after, |body|);
      assert after[..|body|] == body;
      forall j | 0 <= j <= |body| ensures Net(body[..j]) >= 0 {
        assert after[..j] == body[..j];
      }
    }
  }

  lemma {:induction false} NameIsMeasured(name: string, rest: string, i: nat)
    requires IsName(name) && i <= |name| && (rest == "" || !NameChar(rest[0], false))
    ensures NameLengthFrom(name + rest, i) == |name|
    decreases |name| - i
  {
    if i < |name| {
      assert (name + rest)[i] == name[i];
      NameIsMeasured(name, rest, i + 1);
    }
  }

  /** What is printed between a name and the end of its reference. */
  function PrintModifier(mode: Mode, default: Template): string {
    match mode
    case Required => ""
    case IfUnsetOrEmpty => ":-" + Print(default)
    case IfUnset => "-" + Print(default)
  }

  lemma ModifierIsRead(mode: Mode, default: Template)
    ensures Modifier(PrintModifier(mode, default)) == Some((mode, if mode.Required? then "" else Print(default)))
    ensures PrintModifier(mode, default) == "" || !NameChar(PrintModifier(mode, default)[0], false)
  {
  }

  lemma NameIsSplitOff(name: string, text: string)
    requires IsName(name) && (text == "" || !NameChar(text[0], false))
    ensures
      var n := NameLength(name + text);
      n == |name| && (name + text)[..n] == name && (name + text)[n..] == text
  {
    NameIsMeasured(name, text, 0);
  }

  lemma BodyResolves(name: string, mode: Mode, default: Template, vars: Vars)
    requires IsName(name)
    requires Expand(Print(default), vars) == Evaluate(default, vars)
    ensures Resolve(PrintBody(name, mode, default), vars) == EvaluatePiece(Reference(name, mode, default), vars)
  {
    var text := PrintModifier(mode, default);
    BodyIsNameAndModifier(name, mode, default);
    ModifierIsRead(mode, default);
    NameIsSplitOff(name, text);
  }

  lemma BodyIsNameAndModifier(name: string, mode: Mode, default: Template)
    ensures PrintBody(name, mode, default) == name + PrintModifier(mode, default)
  {
  }

  lemma {:induction false} NamesHaveNoBraces(name: string, n: nat)
    requires IsName(name) && n <= |name|
    ensures Net(name[..n]) == 0
  {
    if n > 0 {
      NetStep(name, n - 1);
      NamesHaveNoBraces(name, n - 1);
    }
  }

  lemma BalancedConcat(a: string, b: string)
    requires Balanced(a) && Balanced(b)
    ensures Balanced(a + b)
  {
    NetConcat(a, b);
    forall j | 0 <= j <= |a + b| ensures Net((a + b)[..j]) >= 0 {
      if j <= |a| {
        assert (a + b)[..j] == a[..j];
      } else {
        assert (a + b)[..j] == a + b[..j - |a|];
        NetConcat(a, b[..j - |a|]);
      }
    }
  }

  lemma NamesAreBalanced(name: string)
    requires IsName(name)
    ensures Balanced(name)
  {
    assert name[..|name|] == name;
    forall j | 0 <= j <= |name| ensures Net(name[..j]) == 0 {
      NamesHaveNoBraces(name, j);
    }
  }

  lemma SignsAreBalanced()
    ensures Balanced(":-") && Balanced("-") && Balanced("")
  {
  }

  lemma BalancedRest(a: string, b: string)
    requires Net(a) == 0 && Balanced(a + b)
    ensures Balanced(b)
  {
    NetConcat(a, b);
    forall j | 0 <= j <= |b| ensures Net(b[..j]) >= 0 {
      assert (a + b)[..|a| + j] == a + b[..j];
      NetConcat(a, b[..j]);
    }
  }

  lemma BodyIsBalancedExactlyWhen(name: string, mode: Mode, default: Template)
    requires IsName(name)
    ensures Balanced(PrintBody(name, mode, default)) <==> mode.Required? || Balanced(Print(default))
  {
    NamesAreBalanced(name);
    SignsAreBalanced();
    match mode
    case Required =>
    case IfUnsetOrEmpty =>
      BalancedConcat(name, ":-");
      if Balanced(PrintBody(name, mode, default)) {
        BalancedRest(name + ":-", Print(default));
      } else if Balanced(Print(default)) {
        BalancedConcat(name + ":-", Print(default));
      }
    case IfUnset =>
      BalancedConcat(name, "-");
      if Balanced(PrintBody(name, mode, default)) {
        BalancedRest(name + "-", Print(default));
      } else if Balanced(Print(default)) {
        BalancedConcat(name + "-", Print(default));
      }
  }

  /**
   A reference ends where its author ends it exactly when its default, as it is
   written, opens and closes its braces in turn; the brace of an escaped opener
   counts.
   */
  lemma ReferenceEndsExactlyWhen(name: string, mode: Mode, default: Template, rest: string)
    requires IsName(name)
    ensures
      var body := PrintBody(name, mode, default);
      SplitBraced(body + "}" + rest) == Some(|body|) <==> mode.Required? || Balanced(Print(default))
  {
    BodyIsFoundExactlyWhen(PrintBody(name, mode, default), rest);
    BodyIsBalancedExactlyWhen(name, mode, default);
  }

  /** A default that is one escaped opener: its author means a literal opener. */
  const ESCAPED_DEFAULT: Template := [Reference("X", IfUnset, [EscapedOpener])]

  lemma EscapedDefaultPrinted()
    ensures Print(ESCAPED_DEFAULT) == "${X-$${}"
  {
    var default: Template := [EscapedOpener];
    assert default[1..] == [] && ESCAPED_DEFAULT[1..] == [];
    assert Print(default) == "$${";
  }

  lemma EscapedDefaultMeans(vars: Vars)
    ensures "X" !in vars ==> Evaluate(ESCAPED_DEFAULT, vars) == Ok("${")
  {
    var default: Template := [EscapedOpener];
    assert default[1..] == [] && ESCAPED_DEFAULT[1..] == [];
    assert OPENER + "" == OPENER;
    assert Evaluate(default, vars) == Ok(OPENER);
  }

  lemma TheBraceIsMissing(after: string)
    requires after == "X-$${}"
    ensures SplitBraced(after) == None
  {
    assert CloseFrom(after, 6, 1) == None;
    assert CloseFrom(after, 5, 2) == None;
    assert CloseFrom(after, 4, 1) == None;
    assert CloseFrom(after, 2, 1) == None;
    assert CloseFrom(after, 1, 1) == None;
  }

  /** What it prints to is refused for want of a brace, whatever the variables are. */
  lemma AnEscapedBraceCounts(vars: Vars)
    ensures Print(ESCAPED_DEFAULT) == "${X-$${}"
    ensures Expand(Print(ESCAPED_DEFAULT), vars) == Err(Malformed(MissingBrace, "X-$${}"))
    ensures "X" !in vars ==> Evaluate(ESCAPED_DEFAULT, vars) == Ok("${")
  {
    EscapedDefaultPrinted();
    var s := "${X-$${}";
    OpenerIsFirst(s, 0);
    var after := "X-$${}";
    assert s[2..] == after;
    TheBraceIsMissing(after);
    EscapedDefaultMeans(vars);
  }

  /**
   The meaning of the language: what a well-formed template prints to expands
   to the template's value.  Values are taken as they are, defaults are only
   looked at when they are needed, and the first undefined variable is the
   error.
   */
  lemma {:induction false} PrintedTemplatesExpand(t: Template, vars: Vars)
    requires WellFormed(t)
    ensures Expand(Print(t), vars) == Evaluate(t, vars)
    decreases t
  {
    if t != [] {
      var p, rest := t[0], t[1..];
      PrintedTemplatesExpand(rest, vars);
      var s := Print(rest);
      match p
      case Literal(text) =>
        if rest == [] {
          assert text + s == text;
        } else {
          FirstPieceIsNotText(text, rest, vars);
        }
      case EscapedOpener =>
        EscapedOpenerIsCopied("", s, vars);
        assert "" + ("$" + OPENER + s) == "$" + OPENER + s && "" + OPENER == OPENER;
      case Reference(name, mode, default) =>
        PrintedTemplatesExpand(default, vars);
        BodyResolves(name, mode, default, vars);
        BodyIsBalancedExactlyWhen(name, mode, default);
        var body := PrintBody(name, mode, default);
        ReferenceIsSplit(body, s, vars);
        assert PrintPiece(p) + s == OPENER + body + "}" + s;
    }
  }

  /** Text before a template that begins with something else is copied. */
  lemma FirstPieceIsNotText(x: string, t: Template, vars: Vars)
    requires FindOpener(x).None? && t != [] && !t[0].Literal? && (t[0].Reference? ==> !EndsInDollar(x))
    ensures Expand(x + Print(t), vars) == Prefixed(x, Expand(Print(t), vars))
  {
    var s := Print(t);
    match t[0]
    case EscapedOpener =>
      var rest := Print(t[1..]);
      assert PrintPiece(t[0]) == "$" + OPENER && s == PrintPiece(t[0]) + rest;
      assert "" + s == s && "" + OPENER == OPENER;
      EscapedOpenerIsCopied(x, rest, vars);
      EscapedOpenerIsCopied("", rest, vars);
      PrefixedTwice(x, OPENER, Expand(rest, vars));
    case Reference(name, mode, default) =>
      assert s == PrintPiece(t[0]) + Print(t[1..]);
      assert PrintPiece(t[0])[0] == '$' && PrintPiece(t[0])[1] == '{';
      LiteralIsCopied(x, s, vars);
  }

  /**
   Whatever a reference resolves to is inserted as it is, even if it looks like
   a reference: the text before it and its value are copied, and only what
   stands after it in the input is expanded on.
   */
  lemma ValuesAreNotRescanned(x: string, body: string, rest: string, vars: Vars)
    requires FindOpener(x).None? && !EndsInDollar(x) && Balanced(body) && Resolve(body, vars).Ok?
    ensures Expand(x + (OPENER + body + "}" + rest), vars) ==
              Prefixed(x + Resolve(body, vars).value, Expand(rest, vars))
  {
    ReferenceIsSplit(body, rest, vars);
    LiteralIsCopied(x, OPENER + body + "}" + rest, vars);
    PrefixedTwice(x, Resolve(body, vars).value, Expand(rest, vars));
  }

  // ── Names, with their characters spelled out ──────────────────────────────

  /** A letter or an underscore, and then letters, digits and underscores. */
  predicate IsWord(name: string) {
    && name != ""
    && ('a' <= name[0] <= 'z' || 'A' <= name[0] <= 'Z' || name[0] == '_')
    && forall i :: 0 < i < |name| ==> ContinuesWord(name[i])
  }

  predicate ContinuesWord(c: char) {
    'a' <= c <= 'z' || 'A' <= c <= 'Z' || '0' <= c <= '9' || c == '_'
  }

  lemma WordsAreNames(name: string)
    ensures IsWord(name) <==> IsName(name)
  {
    if IsName(name) {
      assert NameChar(name[0], true);
      forall i | 0 < i < |name| ensures ContinuesWord(name[i]) {
        assert NameChar(name[i], false);
      }
    }
    if IsWord(name) {
      forall i | 0 <= i < |name| ensures NameChar(name[i], i == 0) {
        assert i > 0 ==> ContinuesWord(name[i]);
      }
    }
  }

  /** A reference on its own. */
  lemma ReferenceAlone(body: string, vars: Vars)
    requires Balanced(body)
    ensures Expand("${" + body + "}", vars) == Resolve(body, vars)
  {
    ReferenceIsSplit(body, "", vars);
    assert OPENER + body + "}" + "" == "${" + body + "}";
    assert Expand("", vars) == Ok("");
    var r := Resolve(body, vars);
    if r.Ok? {
      assert r.value + "" == r.value;
    }
  }

  /**
   Any word can be referred to: its value is inserted, or the default text is
   expanded in its place, or it is named as undefined.
   */
  lemma AnyWordCanBeReferredTo(name: string, text: string, vars: Vars)
    requires IsWord(name)
    ensures Expand("${" + name + "}", vars) == if name in vars then Ok(vars[name]) else Err(Undefined(name))
    ensures Balanced(text) ==>
              Expand("${" + (name + "-" + text) + "}", vars) ==
                if name in vars then Ok(vars[name]) else Expand(text, vars)
    ensures Balanced(text) ==>
              Expand("${" + (name + ":-" + text) + "}", vars) ==
                if name in vars && vars[name] != "" then Ok(vars[name]) else Expand(text, vars)
  {
    WordsAreNames(name);
    ReferencesAreAsInTheShell(name, text, vars);
    NamesAreBalanced(name);
    ReferenceAlone(name, vars);
    if Balanced(text) {
      SignsAreBalanced();
      BalancedConcat(name, "-");
      BalancedConcat(name + "-", text);
      ReferenceAlone(name + "-" + text, vars);
      BalancedConcat(name, ":-");
      BalancedConcat(name + ":-", text);
      ReferenceAlone(name + ":-" + text, vars);
    }
  }

  /** What does not begin with a letter or an underscore names nothing. */
  lemma OthersNameNothing(body: string, vars: Vars)
    requires body == "" || (!('a' <= body[0] <= 'z') && !('A' <= body[0] <= 'Z') && body[0] != '_')
    ensures Resolve(body, vars) == Err(Malformed(NoName, body))
    ensures Balanced(body) ==> Expand("${" + body + "}", vars) == Err(Malformed(NoName, body))
  {
    NamelessMeans(body, vars);
    if Balanced(body) {
      ReferenceAlone(body, vars);
    }
  }

  /** A name goes on to the first character that is no letter, digit or underscore. */
  lemma ANameEndsAtTheFirstOther(name: string, text: string, vars: Vars)
    requires IsWord(name) && text != "" && !ContinuesWord(text[0])
    ensures NameLength(name + text) == |name|
    ensures text[0] != '-' && !(text[0] == ':' && |text| > 1 && text[1] == '-') ==>
              Resolve(name + text, vars) == Err(Malformed(UnsupportedForm, name + text))
  {
    WordsAreNames(name);
    NameIsMeasured(name, text, 0);
    if text[0] != '-' && !(text[0] == ':' && |text| > 1 && text[1] == '-') {
      OtherTextIsRefused(name, text, vars);
    }
  }

  /** Write every `${` as `$${`. */
  function EscapeOpeners(s: string): string
    decreases |s|
  {
    match FindOpener(s)
    case None => s
    case Some(at) => s[..at] + ("$" + OPENER + EscapeOpeners(s[at + 2..]))
  }

  /** Any text at all can be written so that it survives expansion unchanged, whatever is defined. */
  lemma {:induction false} EscapedTextSurvives(s: string, vars: Vars)
    ensures Expand(EscapeOpeners(s), vars) == Ok(s)
    decreases |s|
  {
    var at := FindOpener(s);
    if at.Some? {
      var x, rest := s[..at.value], s[at.value + 2..];
      EscapedTextSurvives(rest, vars);
      NoOpenerBefore(s, at.value);
      EscapedOpenerIsCopied(x, EscapeOpeners(rest), vars);
      SplitAtOpener(s, at.value);
    }
  }

  lemma NoOpenerBefore(s: string, at: nat)
    requires FindOpener(s) == Some(at)
    ensures FindOpener(s[..at]).None?
  {
    FoundIsFirst(s);
    var x := s[..at];
    assert forall i: nat :: OpensAt(x, i) ==> OpensAt(s, i);
    FoundIsFirst(x);
  }

  lemma SplitAtOpener(s: string, at: nat)
    requires OpensAt(s, at)
    ensures s == s[..at] + OPENER + s[at + 2..]
  {
  }
}
