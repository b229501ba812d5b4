/** Scanning rule text for operators outside parentheses and backticks. */
module RuleScanner {
  import opened Wrappers

  /** Where a scan stands: how deep in parentheses, and whether between backticks. */
  datatype State = State(depth: int, quoted: bool)

  const START := State(0, false)

  function Next(st: State, c: char): State {
    if c == '`' then st.(quoted := !st.quoted)
    else if st.quoted then st
    else if c == '(' then st.(depth := st.depth + 1)
    else if c == ')' then st.(depth := st.depth - 1)
    else st
  }

  predicate Special(c: char) {
    c == '`' || c == '(' || c == ')'
  }

  function Shift(r: Option<nat>, k: nat): Option<nat> {
    if r.Some? then Some(r.value + k) else None
  }

  /** Where the operator of two `x` first stands in `s` at depth zero and outside backticks. */
  function Find(s: string, x: char, st: State): (r: Option<nat>)
    ensures r.Some? ==> r.value + 2 <= |s|
  {
    if s == [] then None
    else if !Special(s[0]) && st == START && [x, x] <= s then Some(0)
    else Shift(Find(s[1..], x, Next(st, s[0])), 1)
  }

  lemma FindStep(s: string, i: nat, x: char, st: State)
    requires i < |s|
    ensures Shift(Find(s[i..], x, st), i)
         == if !Special(s[i]) && st == START && [x, x] <= s[i..] then Some(i)
            else Shift(Find(s[i + 1..], x, Next(st, s[i])), i + 1)
  {
    assert s[i..][1..] == s[i + 1..];
  }

  /** Scan for an operator, one character at a time. */
  method FindOperator(input: string, x: char) returns (pos: Option<nat>)
    ensures pos == Find(input, x, START)
  {
    var depth, inBacktick := 0, false;
    for i := 0 to |input|
      invariant Find(input, x, START) == Shift(Find(input[i..], x, State(depth, inBacktick)), i)
    {
      var c := input[i];
      FindStep(input, i, x, State(depth, inBacktick));
      if c == '`' {
        inBacktick := !inBacktick;
      } else if c == '(' && !inBacktick {
        depth := depth + 1;
      } else if c == ')' && !inBacktick {
        depth := depth - 1;
      } else if !inBacktick && depth == 0 && !Special(c) {
        if [x, x] <= input[i..] {
          return Some(i);
        }
      }
    }
    return None;
  }

  // ---- Scanning a text in two parts ----

  /** Where a scan of `s` ends. */
  function End(s: string, st: State): State {
    if s == [] then st else End(s[1..], Next(st, s[0]))
  }

  lemma {:induction false} EndConcat(a: string, b: string, st: State)
    ensures End(a + b, st) == End(b, End(a, st))
  {
    if a == [] {
      assert a + b == b;
    } else {
      EndConcat(a[1..], b, Next(st, a[0]));
      assert (a + b)[1..] == a[1..] + b;
    }
  }

  lemma EndLast(s: string, st: State)
    requires s != []
    ensures End(s, st) == Next(End(s[..|s| - 1], st), s[|s| - 1])
  {
    var k := |s| - 1;
    EndConcat(s[..k], s[k..], st);
    assert s == s[..k] + s[k..] && s[k..][1..] == [];
  }

  /** The operator is not in `s`, and does not start at its end. */
  predicate Clear(s: string, x: char, st: State) {
    Find(s, x, st) == None && (s != [] && s[|s| - 1] == x ==> End(s, st) != START)
  }

  /** After a clear part the scan goes on as if it had started there. */
  lemma {:induction false} FindPasses(a: string, b: string, x: char, st: State)
    requires !Special(x) && Clear(a, x, st)
    ensures Find(a + b, x, st) == Shift(Find(b, x, End(a, st)), |a|)
  {
    if a == [] {
      assert a + b == b;
    } else {
      assert (a + b)[1..] == a[1..] + b;
      if |a| == 1 && !Special(a[0]) && st == START {
        assert End(a, st) == End(a[1..], Next(st, a[0])) == START;
        assert !([x, x] <= a + b) by {
          assert (a + b)[0] == a[0] != x;
        }
      } else if |a| >= 2 {
        assert (a + b)[..2] == a[..2];
      }
      FindPasses(a[1..], b, x, Next(st, a[0]));
    }
  }

  /** A find in the front part stays where it is, whatever follows. */
  lemma {:induction false} FindStays(a: string, b: string, x: char, st: State)
    requires Find(a, x, st).Some?
    ensures Find(a + b, x, st) == Find(a, x, st)
  {
    assert (a + b)[1..] == a[1..] + b;
    if !(!Special(a[0]) && st == START && [x, x] <= a) {
      if |a| >= 2 {
        assert (a + b)[..2] == a[..2];
      }
      FindStays(a[1..], b, x, Next(st, a[0]));
    } else {
      assert (a + b)[..2] == a[..2];
    }
  }

  /** When the operator starts at the last character of `a` and ends in what follows. */
  lemma {:induction false} FindStraddles(a: string, b: string, x: char, st: State)
    requires !Special(x) && a != [] && a[|a| - 1] == x && End(a, st) == START && Find(a, x, st) == None
    requires b != [] && b[0] == x
    ensures Find(a + b, x, st) == Some(|a| - 1)
    decreases |a|, 0
  {
    var k := |a| - 1;
    var front, back := a[..k], a[k..] + b;
    EndLast(a, st);
    assert front + a[k..] == a;
    ClearFront(front, a[k..], x, st);
    FindPasses(front, back, x, st);
    assert a + b == front + back;
    assert back[..2] == [x, x];
  }

  lemma {:induction false} ClearFront(a: string, b: string, x: char, st: State)
    requires !Special(x) && Find(a + b, x, st) == None && b != [] && b[0] == x
    ensures Clear(a, x, st)
    decreases |a|, 1
  {
    if Find(a, x, st).Some? {
      FindStays(a, b, x, st);
    } else if a != [] && a[|a| - 1] == x && End(a, st) == START {
      FindStraddles(a, b, x, st);
    }
  }

  /** The operator between `s` and `t` is the one that is found exactly when `s` has none itself,
      closes all its parentheses and backticks, and does not end in half an operator. */
  lemma FindsBetweenExactly(s: string, x: char, t: string)
    requires !Special(x)
    ensures Find(s + [x, x] + t, x, START) == Some(|s|) <==> Clear(s, x, START) && End(s, START) == START
  {
    var rest := [x, x] + t;
    assert s + [x, x] + t == s + rest && rest[..2] == [x, x];
    if Clear(s, x, START) {
      FindPasses(s, rest, x, START);
      if End(s, START) != START {
        FindShifts(rest, x, End(s, START));
      }
    } else if Find(s, x, START).Some? {
      FindStays(s, rest, x, START);
    } else {
      FindStraddles(s, rest, x, START);
    }
  }

  lemma FindShifts(s: string, x: char, st: State)
    requires st != START
    ensures Find(s, x, st) != Some(0)
  {
  }
}

/** Trimming of white space around rule text. */
module RuleTrim {
  predicate Space(c: char) {
    c == ' ' || 9 <= c as int <= 13
  }

  /** White space is the space and the five control characters from tab to carriage return. */
  lemma SpaceExactly(c: char)
    ensures Space(c) <==> c in " \t\n\U{0B}\U{0C}\r"
  {
  }

  predicate Blank(s: string) {
    forall i :: 0 <= i < |s| ==> Space(s[i])
  }

  function TrimStart(s: string): (r: string)
    ensures |r| <= |s| && (r != [] ==> !Space(r[0]))
  {
    if s != [] && Space(s[0]) then TrimStart(s[1..]) else s
  }

  function TrimEnd(s: string): (r: string)
    ensures r <= s && (r != [] ==> !Space(r[|r| - 1]))
  {
    if s != [] && Space(s[|s| - 1]) then TrimEnd(s[..|s| - 1]) else s
  }

  function Trim(s: string): (r: string)
    ensures |r| <= |s| && (r != [] ==> !Space(r[0]) && !Space(r[|r| - 1]))
  {
    TrimEnd(TrimStart(s))
  }

  lemma TrimSpaceBefore(c: char, s: string)
    requires Space(c)
    ensures Trim([c] + s) == Trim(s)
  {
    assert ([c] + s)[1..] == s;
  }

  lemma {:induction false} TrimStartAppend(s: string, c: char)
    requires Space(c)
    ensures TrimStart(s + [c]) == if TrimStart(s) == [] then [] else TrimStart(s) + [c]
  {
    if s == [] {
      assert s + [c] == [c] && [c][1..] == [];
    } else if Space(s[0]) {
      assert (s + [c])[1..] == s[1..] + [c];
      TrimStartAppend(s[1..], c);
    }
  }

  lemma TrimSpaceAfter(s: string, c: char)
    requires Space(c)
    ensures Trim(s + [c]) == Trim(s)
  {
    TrimStartAppend(s, c);
    var t := TrimStart(s);
    assert t != [] ==> (t + [c])[..|t|] == t;
  }

  lemma {:induction false} TrimPadding(before: string, s: string, after: string)
    requires Blank(before) && Blank(after)
    ensures Trim(before + s + after) == Trim(s)
    decreases |before| + |after|
  {
    if before != [] {
      TrimPadding(before[1..], s, after);
      TrimSpaceBefore(before[0], before[1..] + s + after);
      assert before + s + after == [before[0]] + (before[1..] + s + after);
    } else if after != [] {
      var k := |after| - 1;
      TrimPadding(before, s, after[..k]);
      TrimSpaceAfter(before + s + after[..k], after[k]);
      assert before + s + after == before + s + after[..k] + [after[k]];
    } else {
      assert before + s + after == s;
    }
  }

  lemma {:induction false} TrimEndTrim(s: string)
    ensures Trim(TrimEnd(s)) == Trim(s)
  {
    if s == [] || !Space(s[|s| - 1]) {
    } else {
      var k := |s| - 1;
      TrimEndTrim(s[..k]);
      TrimSpaceAfter(s[..k], s[k]);
      assert s == s[..k] + [s[k]];
    }
  }

  lemma {:induction false} TrimEndAfter(c: char, s: string)
    requires !Space(c)
    ensures TrimEnd([c] + s) == [c] + TrimEnd(s)
  {
    if s != [] {
      var k := |s| - 1;
      assert ([c] + s)[..|[c] + s| - 1] == [c] + s[..k] && ([c] + s)[|s|] == s[k];
      if Space(s[k]) {
        TrimEndAfter(c, s[..k]);
      }
    } else {
      assert [c] + s == [c];
    }
  }
}

/** The rule parser. */
module RuleParser {
  import opened Rules
  import opened Sequences
  import opened RuleScanner
  import opened RuleTrim
  import opened Wrappers

  datatype Error = InvalidSyntax | InvalidRegex(pattern: string) | UnknownFunction(name: string)

  datatype Kind = HostK | HostRegexpK | PathK | PathPrefixK | PathRegexpK | HeaderK | HeaderRegexpK | MethodK | QueryK

  function KindOf(name: string): Option<Kind> {
    if name == "Host" then Some(HostK)
    else if name == "HostRegexp" then Some(HostRegexpK)
    else if name == "Path" then Some(PathK)
    else if name == "PathPrefix" then Some(PathPrefixK)
    else if name == "PathRegexp" then Some(PathRegexpK)
    else if name == "Header" then Some(HeaderK)
    else if name == "HeaderRegexp" then Some(HeaderRegexpK)
    else if name == "Method" then Some(MethodK)
    else if name == "Query" then Some(QueryK)
    else None
  }

  function Arity(kind: Kind): nat {
    if kind.HeaderK? || kind.HeaderRegexpK? || kind.QueryK? then 2 else 1
  }

  predicate TakesPattern(kind: Kind) {
    kind.HostRegexpK? || kind.PathRegexpK? || kind.HeaderRegexpK?
  }

  function Matcher(kind: Kind, first: string, last: string): Rule {
    match kind
    case HostK => Host(first)
    case HostRegexpK => HostRegex(first)
    case PathK => Path(first)
    case PathPrefixK => PathPrefix(first)
    case PathRegexpK => PathRegex(first)
    case HeaderK => Header(first, last)
    case HeaderRegexpK => HeaderRegex(first, last)
    case MethodK => Method(first)
    case QueryK => Query(first, last)
  }

  /** A call of a matcher: one argument, of which any more are ignored, or exactly two. `valid` says
      whether a pattern compiles. */
  function Build(kind: Kind, args: seq<string>, valid: string -> bool): Result<Rule, Error> {
    var n := Arity(kind);
    if |args| < n || (n == 2 && |args| > 2) then Err(InvalidSyntax)
    else if TakesPattern(kind) && !valid(args[n - 1]) then Err(InvalidRegex(args[n - 1]))
    else Ok(Matcher(kind, args[0], args[n - 1]))
  }

  /** The texts between backticks; `current` is the one begun. */
  function Args(s: string, quoted: bool, current: string): seq<string> {
    if s == [] then []
    else if s[0] == '`' then
      if quoted then [current] + Args(s[1..], false, []) else Args(s[1..], true, current)
    else Args(s[1..], quoted, if quoted then current + [s[0]] else current)
  }

  /** Collect the arguments of a call, one character at a time. */
  method ParseArgs(input: string) returns (args: seq<string>)
    ensures args == Args(input, false, [])
  {
    args := [];
    var current: string, inBacktick := [], false;
    for i := 0 to |input|
      invariant args + Args(input[i..], inBacktick, current) == Args(input, false, [])
    {
      var c := input[i];
      assert input[i..][1..] == input[i + 1..];
      if c == '`' {
        if inBacktick {
          args := args + [current];
          current := [];
        }
        inBacktick := !inBacktick;
      } else if inBacktick {
        current := current + [c];
      }
    }
  }

  function ParseFunction(s: string, valid: string -> bool): Result<Rule, Error> {
    var input := Trim(s);
    var open := IndexOf(input, '(');
    if open == |input| || input[|input| - 1] != ')' then Err(InvalidSyntax)
    else
      match KindOf(input[..open]) {
        case None => Err(UnknownFunction(input[..open]))
        case Some(kind) => Build(kind, Args(input[open + 1..|input| - 1], false, []), valid)
      }
  }

  /** Both sides of an operator of two `x`; an error on the left is reported first. */
  function Joined(x: char, left: Result<Rule, Error>, right: Result<Rule, Error>): Result<Rule, Error> {
    if left.Err? then left
    else if right.Err? then right
    else Ok(if x == '|' then Or(left.value, right.value) else And(left.value, right.value))
  }

  function ParsePrimary(s: string, valid: string -> bool): Result<Rule, Error>
    decreases |s|, 0
  {
    var input := Trim(s);
    if |input| >= 2 && input[0] == '(' && input[|input| - 1] == ')' then ParseOr(input[1..|input| - 1], valid)
    else ParseFunction(input, valid)
  }

  function ParseUnary(s: string, valid: string -> bool): Result<Rule, Error>
    decreases |s|, 1
  {
    var input := Trim(s);
    if input != [] && input[0] == '!' then
      var inner := ParseUnary(input[1..], valid);
      if inner.Err? then inner else Ok(Not(inner.value))
    else ParsePrimary(input, valid)
  }

  function ParseAnd(s: string, valid: string -> bool): Result<Rule, Error>
    decreases |s|, 2
  {
    match Find(s, '&', START)
    case Some(p) => Joined('&', ParseAnd(s[..p], valid), ParseAnd(s[p + 2..], valid))
    case None => ParseUnary(s, valid)
  }

  function ParseOr(s: string, valid: string -> bool): Result<Rule, Error>
    decreases |s|, 3
  {
    match Find(s, '|', START)
    case Some(p) => Joined('|', ParseOr(s[..p], valid), ParseOr(s[p + 2..], valid))
    case None => ParseAnd(s, valid)
  }

  function Parse(s: string, valid: string -> bool): Result<Rule, Error> {
    ParseOr(Trim(s), valid)
  }

  // ---- White space ----

  lemma {:induction false} FindAppend(s: string, c: char, x: char, st: State)
    requires c != x
    ensures Find(s + [c], x, st) == Find(s, x, st)
  {
    if s == [] {
      assert s + [c] == [c] && [c][1..] == [];
    } else {
      assert (s + [c])[1..] == s[1..] + [c];
      if |s| >= 2 {
        assert (s + [c])[..2] == s[..2];
      } else {
        assert (s + [c])[1] == c;
      }
      FindAppend(s[1..], c, x, Next(st, s[0]));
    }
  }

  lemma FindPrepend(c: char, s: string, x: char)
    requires Space(c) && !Special(x) && !Space(x)
    ensures Find([c] + s, x, START) == Shift(Find(s, x, START), 1)
  {
    assert ([c] + s)[1..] == s;
  }

  lemma UnaryTrims(s: string, t: string, valid: string -> bool)
    requires Trim(s) == Trim(t)
    ensures ParseUnary(s, valid) == ParseUnary(t, valid)
  {
  }

  lemma {:induction false} BlankBeforeAnd(c: char, s: string, valid: string -> bool)
    requires Space(c)
    ensures ParseAnd([c] + s, valid) == ParseAnd(s, valid)
    decreases |s|
  {
    FindPrepend(c, s, '&');
    match Find(s, '&', START)
    case Some(p) =>
      BlankBeforeAnd(c, s[..p], valid);
      assert ([c] + s)[..p + 1] == [c] + s[..p] && ([c] + s)[p + 3..] == s[p + 2..];
    case None =>
      TrimSpaceBefore(c, s);
      UnaryTrims([c] + s, s, valid);
  }

  lemma {:induction false} BlankBefore(c: char, s: string, valid: string -> bool)
    requires Space(c)
    ensures ParseOr([c] + s, valid) == ParseOr(s, valid)
    decreases |s|
  {
    FindPrepend(c, s, '|');
    match Find(s, '|', START)
    case Some(p) =>
      BlankBefore(c, s[..p], valid);
      assert ([c] + s)[..p + 1] == [c] + s[..p] && ([c] + s)[p + 3..] == s[p + 2..];
    case None =>
      BlankBeforeAnd(c, s, valid);
  }

  lemma {:induction false} BlankAfterAnd(s: string, c: char, valid: string -> bool)
    requires Space(c)
    ensures ParseAnd(s + [c], valid) == ParseAnd(s, valid)
    decreases |s|
  {
    FindAppend(s, c, '&', START);
    match Find(s, '&', START)
    case Some(p) =>
      BlankAfterAnd(s[p + 2..], c, valid);
      assert (s + [c])[..p] == s[..p] && (s + [c])[p + 2..] == s[p + 2..] + [c];
    case None =>
      TrimSpaceAfter(s, c);
      UnaryTrims(s + [c], s, valid);
  }

  lemma {:induction false} BlankAfter(s: string, c: char, valid: string -> bool)
    requires Space(c)
    ensures ParseOr(s + [c], valid) == ParseOr(s, valid)
    decreases |s|
  {
    FindAppend(s, c, '|', START);
    match Find(s, '|', START)
    case Some(p) =>
      BlankAfter(s[p + 2..], c, valid);
      assert (s + [c])[..p] == s[..p] && (s + [c])[p + 2..] == s[p + 2..] + [c];
    case None =>
      BlankAfterAnd(s, c, valid);
  }

  lemma {:induction false} TrimStartIgnored(s: string, valid: string -> bool)
    ensures ParseOr(TrimStart(s), valid) == ParseOr(s, valid)
  {
    if s == [] || !Space(s[0]) {
    } else {
      TrimStartIgnored(s[1..], valid);
      BlankBefore(s[0], s[1..], valid);
      assert s == [s[0]] + s[1..];
    }
  }

  lemma {:induction false} TrimEndIgnored(s: string, valid: string -> bool)
    ensures ParseOr(TrimEnd(s), valid) == ParseOr(s, valid)
  {
    if s == [] || !Space(s[|s| - 1]) {
    } else {
      var k := |s| - 1;
      TrimEndIgnored(s[..k], valid);
      BlankAfter(s[..k], s[k], valid);
      assert s == s[..k] + [s[k]];
    }
  }

  /** White space around a rule never changes what it parses to, for rules that do not parse either. */
  lemma TrimIgnored(s: string, valid: string -> bool)
    ensures Parse(s, valid) == ParseOr(s, valid)
  {
    TrimStartIgnored(s, valid);
    TrimEndIgnored(TrimStart(s), valid);
  }

  /** A rule splits at `||` before it splits at `&&`, and at the first one. */
  lemma SplitsBetween(s: string, t: string, valid: string -> bool)
    requires End(s, START) == START
    ensures Clear(s, '|', START) ==>
              ParseOr(s + "||" + t, valid) == Joined('|', ParseOr(s, valid), ParseOr(t, valid))
    ensures Clear(s, '&', START) ==>
              ParseAnd(s + "&&" + t, valid) == Joined('&', ParseAnd(s, valid), ParseAnd(t, valid))
  {
    FindsBetweenExactly(s, '|', t);
    FindsBetweenExactly(s, '&', t);
    assert "||" == ['|', '|'] && "&&" == ['&', '&'];
    var u, v := s + "||" + t, s + "&&" + t;
    assert u[..|s|] == s && u[|s| + 2..] == t && v[..|s|] == s && v[|s| + 2..] == t;
  }
}
