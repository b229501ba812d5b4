/** The grammar of rules, and that the parser accepts all of it and builds the intended tree. */
module RuleSyntax {
  import opened Rules
  import opened Sequences
  import opened RuleScanner
  import opened RuleTrim
  import opened RuleParser
  import opened Wrappers

  /** Concrete syntax. A call keeps what stands around its quoted arguments in `gaps`; a word without
      parentheses, or nothing at all, stands where a call should. */
  datatype Syntax =
    | Call(name: string, args: seq<string>, gaps: seq<string>)
    | Word(text: string)
    | Group(inner: Syntax)
    | Negation(inner: Syntax)
    | Conjunction(left: Syntax, right: Syntax)
    | Disjunction(left: Syntax, right: Syntax)
    | Padded(before: string, inner: Syntax, after: string)

  function Quoted(s: string): string {
    ['`'] + s + ['`']
  }

  /** Quoted arguments between gaps. */
  function Body(args: seq<string>, gaps: seq<string>): string
    requires |gaps| == |args| + 1
  {
    if args == [] then gaps[0] else gaps[0] + Quoted(args[0]) + Body(args[1..], gaps[1..])
  }

  function Parens(s: string): string {
    ['('] + s + [')']
  }

  /** How loosely a text binds: 0 for calls, groups and negations, 1 for `&&`, 2 for `||`. */
  function Level(x: Syntax): nat {
    match x
    case Conjunction(_, _) => 1
    case Disjunction(_, _) => 2
    case Padded(_, y, _) => Level(y)
    case _ => 0
  }

  predicate Plain(s: string) {
    forall i :: 0 <= i < |s| ==> !Special(s[i])
  }

  predicate Letter(c: char) {
    'A' <= c <= 'Z' || 'a' <= c <= 'z'
  }

  predicate Letters(s: string) {
    forall i :: 0 <= i < |s| ==> Letter(s[i])
  }

  /** `&&` binds more tightly than `||`, `!` more tightly than both, and both operators associate to
      the right. */
  predicate Valid(x: Syntax) {
    match x
    case Call(name, args, gaps) =>
      && name != [] && Letters(name) && |gaps| == |args| + 1
      && (forall g :: g in gaps ==> Plain(g)) && (forall a :: a in args ==> '`' !in a)
    case Word(text) => Letters(text)
    case Group(y) => Valid(y)
    case Negation(y) => Level(y) == 0 && Valid(y)
    case Conjunction(y, z) => Level(y) == 0 && Level(z) <= 1 && Valid(y) && Valid(z)
    case Disjunction(y, z) => Level(y) <= 1 && Valid(y) && Valid(z)
    case Padded(before, y, after) => Level(y) == 0 && Blank(before) && Blank(after) && Valid(y)
  }

  function Text(x: Syntax): string
    requires Valid(x)
  {
    match x
    case Call(name, args, gaps) => name + Parens(Body(args, gaps))
    case Word(text) => text
    case Group(y) => Parens(Text(y))
    case Negation(y) => ['!'] + Text(y)
    case Conjunction(y, z) => Text(y) + ['&', '&'] + Text(z)
    case Disjunction(y, z) => Text(y) + ['|', '|'] + Text(z)
    case Padded(before, y, after) => before + Text(y) + after
  }

  /** A matcher of one argument; further ones are ignored. */
  function OfOne(args: seq<string>, rule: string -> Rule): Result<Rule, Error> {
    if args == [] then Err(InvalidSyntax) else Ok(rule(args[0]))
  }

  /** A matcher of exactly two arguments. */
  function OfTwo(args: seq<string>, rule: (string, string) -> Rule): Result<Rule, Error> {
    if |args| != 2 then Err(InvalidSyntax) else Ok(rule(args[0], args[1]))
  }

  /** What was built, if its pattern compiles. */
  function Compiled(built: Result<Rule, Error>, pattern: string, valid: string -> bool): Result<Rule, Error> {
    if built.Ok? && !valid(pattern) then Err(InvalidRegex(pattern)) else built
  }

  function First(args: seq<string>): string {
    if args == [] then "" else args[0]
  }

  function Second(args: seq<string>): string {
    if |args| < 2 then "" else args[1]
  }

  /** What a call means, matcher by matcher. */
  function Meaning(name: string, args: seq<string>, valid: string -> bool): Result<Rule, Error> {
    if name == "Host" then OfOne(args, h => Host(h))
    else if name == "HostRegexp" then Compiled(OfOne(args, p => HostRegex(p)), First(args), valid)
    else if name == "Path" then OfOne(args, p => Path(p))
    else if name == "PathPrefix" then OfOne(args, p => PathPrefix(p))
    else if name == "PathRegexp" then Compiled(OfOne(args, p => PathRegex(p)), First(args), valid)
    else if name == "Header" then OfTwo(args, (n, v) => Header(n, v))
    else if name == "HeaderRegexp" then Compiled(OfTwo(args, (n, p) => HeaderRegex(n, p)), Second(args), valid)
    else if name == "Method" then OfOne(args, m => Method(m))
    else if name == "Query" then OfTwo(args, (k, v) => Query(k, v))
    else Err(UnknownFunction(name))
  }

  /** The rule a text stands for, or the error furthest to the left. */
  function Outcome(x: Syntax, valid: string -> bool): Result<Rule, Error>
    requires Valid(x)
  {
    match x
    case Call(name, args, _) => Meaning(name, args, valid)
    case Word(_) => Err(InvalidSyntax)
    case Group(y) => Outcome(y, valid)
    case Negation(y) =>
      var inner := Outcome(y, valid);
      if inner.Ok? then Ok(Not(inner.value)) else inner
    case Conjunction(y, z) =>
      var left, right := Outcome(y, valid), Outcome(z, valid);
      if left.Err? then left else if right.Err? then right else Ok(And(left.value, right.value))
    case Disjunction(y, z) =>
      var left, right := Outcome(y, valid), Outcome(z, valid);
      if left.Err? then left else if right.Err? then right else Ok(Or(left.value, right.value))
    case Padded(_, y, _) => Outcome(y, valid)
  }

  // ---- Texts that a scan passes over ----

  /** A scan at depth `d` passes over `s` without finding the operator, and is back where it was. */
  predicate Inert(s: string, x: char, d: int) {
    Clear(s, x, State(d, false)) && End(s, State(d, false)) == State(d, false)
  }

  lemma InertConcat(a: string, b: string, x: char, d: int)
    requires !Special(x) && Inert(a, x, d) && Inert(b, x, d)
    ensures Inert(a + b, x, d)
  {
    EndConcat(a, b, State(d, false));
    FindPasses(a, b, x, State(d, false));
    if b == [] {
      assert a + b == a;
    } else {
      assert (a + b)[|a + b| - 1] == b[|b| - 1];
    }
  }

  lemma {:induction false} PlainInert(s: string, x: char, d: int)
    requires Plain(s) && (d != 0 || x !in s)
    ensures Inert(s, x, d)
  {
    if s == [] {
    } else {
      PlainInert(s[1..], x, d);
      assert s[|s| - 1] in s;
    }
  }

  lemma {:induction false} QuotedRest(s: string, x: char, d: int)
    requires '`' !in s && !Special(x)
    ensures Find(s + ['`'], x, State(d, true)) == None && End(s + ['`'], State(d, true)) == State(d, false)
  {
    var t := s + ['`'];
    if s == [] {
      assert t == ['`'] && t[1..] == [];
    } else {
      assert t[1..] == s[1..] + ['`'];
      QuotedRest(s[1..], x, d);
    }
  }

  lemma QuotedInert(s: string, x: char, d: int)
    requires '`' !in s && !Special(x)
    ensures Inert(Quoted(s), x, d)
  {
    QuotedRest(s, x, d);
    assert Quoted(s)[1..] == s + ['`'];
  }

  lemma ParensInert(s: string, x: char, d: int)
    requires !Special(x) && Inert(s, x, d + 1)
    ensures Inert(Parens(s), x, d)
  {
    var st := State(d + 1, false);
    FindPasses(s, [')'], x, st);
    EndConcat(s, [')'], st);
    assert Parens(s)[1..] == s + [')'] && [')'][1..] == [];
  }

  lemma {:induction false} BodyInert(args: seq<string>, gaps: seq<string>, x: char, d: int)
    requires |gaps| == |args| + 1 && !Special(x) && d != 0
    requires (forall g :: g in gaps ==> Plain(g)) && (forall a :: a in args ==> '`' !in a)
    ensures Inert(Body(args, gaps), x, d)
  {
    PlainInert(gaps[0], x, d);
    if args == [] {
    } else {
      QuotedInert(args[0], x, d);
      InertConcat(gaps[0], Quoted(args[0]), x, d);
      BodyInert(args[1..], gaps[1..], x, d);
      InertConcat(gaps[0] + Quoted(args[0]), Body(args[1..], gaps[1..]), x, d);
    }
  }

  /** The operator `x` is not looked for, or not found, at this depth in a text of this level. */
  predicate Sheltered(level: nat, x: char, d: nat) {
    d > 0 || (x == '|' && level <= 1) || (x == '&' && level == 0)
  }

  lemma {:induction false} TextInert(y: Syntax, x: char, d: nat)
    requires Valid(y) && (x == '&' || x == '|') && Sheltered(Level(y), x, d)
    ensures Inert(Text(y), x, d)
  {
    match y
    case Call(name, args, gaps) =>
      PlainInert(name, x, d);
      BodyInert(args, gaps, x, d + 1);
      ParensInert(Body(args, gaps), x, d);
      InertConcat(name, Parens(Body(args, gaps)), x, d);
    case Word(text) =>
      PlainInert(text, x, d);
    case Group(z) =>
      TextInert(z, x, d + 1);
      ParensInert(Text(z), x, d);
    case Negation(z) =>
      TextInert(z, x, d);
      PlainInert(['!'], x, d);
      InertConcat(['!'], Text(z), x, d);
    case Conjunction(l, r) =>
      TextInert(l, x, d);
      TextInert(r, x, d);
      BinaryInert(Text(l), '&', Text(r), x, d);
    case Disjunction(l, r) =>
      TextInert(l, x, d);
      TextInert(r, x, d);
      BinaryInert(Text(l), '|', Text(r), x, d);
    case Padded(before, z, after) =>
      TextInert(z, x, d);
      PlainInert(before, x, d);
      PlainInert(after, x, d);
      InertConcat(before, Text(z), x, d);
      InertConcat(before + Text(z), after, x, d);
  }

  lemma BinaryInert(l: string, op: char, r: string, x: char, d: int)
    requires !Special(op) && !Special(x) && Inert(l, x, d) && Inert(r, x, d) && (d != 0 || x != op)
    ensures Inert(l + [op, op] + r, x, d)
  {
    PlainInert([op, op], x, d);
    InertConcat(l, [op, op], x, d);
    InertConcat(l + [op, op], r, x, d);
  }

  // ---- Parsing ----

  lemma {:induction false} ArgsSkip(gap: string, rest: string)
    requires '`' !in gap
    ensures Args(gap + rest, false, []) == Args(rest, false, [])
  {
    if gap == [] {
      assert gap + rest == rest;
    } else {
      assert (gap + rest)[1..] == gap[1..] + rest;
      ArgsSkip(gap[1..], rest);
    }
  }

  lemma {:induction false} ArgsQuoted(s: string, rest: string, current: string)
    requires '`' !in s
    ensures Args(s + ['`'] + rest, true, current) == [current + s] + Args(rest, false, [])
  {
    var t := s + ['`'] + rest;
    if s == [] {
      assert t[0] == '`' && t[1..] == rest && current + s == current;
    } else {
      assert t[1..] == s[1..] + ['`'] + rest && t[0] == s[0];
      ArgsQuoted(s[1..], rest, current + [s[0]]);
      assert current + [s[0]] + s[1..] == current + s;
    }
  }

  /** The arguments of a call are what was quoted. */
  lemma {:induction false} ArgsOfBody(args: seq<string>, gaps: seq<string>)
    requires |gaps| == |args| + 1
    requires (forall g :: g in gaps ==> Plain(g)) && (forall a :: a in args ==> '`' !in a)
    ensures Args(Body(args, gaps), false, []) == args
  {
    assert Plain(gaps[0]);
    if args == [] {
      ArgsSkip(gaps[0], []);
      assert gaps[0] + [] == gaps[0];
    } else {
      var a, more := args[0], Body(args[1..], gaps[1..]);
      var quoted := ['`'] + (a + ['`'] + more);
      assert Body(args, gaps) == gaps[0] + quoted;
      ArgsSkip(gaps[0], quoted);
      assert quoted[1..] == a + ['`'] + more;
      ArgsQuoted(a, more, []);
      ArgsOfBody(args[1..], gaps[1..]);
      assert [] + a == a;
    }
  }

  lemma Trimmed(s: string)
    requires s != [] && !Space(s[0]) && !Space(s[|s| - 1])
    ensures Trim(s) == s
  {
  }

  function Called(name: string, body: string, valid: string -> bool): Result<Rule, Error> {
    match KindOf(name)
    case None => Err(UnknownFunction(name))
    case Some(k) => Build(k, Args(body, false, []), valid)
  }

  lemma BuildsMeaning(name: string, kind: Kind, args: seq<string>, valid: string -> bool)
    requires KindOf(name) == Some(kind)
    ensures Build(kind, args, valid) == Meaning(name, args, valid)
  {
  }

  lemma CalledIsMeaning(name: string, body: string, args: seq<string>, valid: string -> bool)
    requires Args(body, false, []) == args
    ensures Called(name, body, valid) == Meaning(name, args, valid)
  {
    match KindOf(name)
    case None =>
    case Some(kind) => BuildsMeaning(name, kind, args, valid);
  }

  lemma WordText(text: string, valid: string -> bool)
    requires Letters(text)
    ensures ParseUnary(text, valid) == Err(InvalidSyntax)
  {
    assert Trim(text) == text;
    assert '(' !in text;
  }

  lemma CallText(name: string, body: string, s: string, valid: string -> bool)
    requires '(' !in name && s == name + Parens(body) && Trim(s) == s
    ensures ParseFunction(s, valid) == Called(name, body, valid)
  {
    CallParts(name, body, s);
    IndexOfFirst(name, '(', body + [')']);
  }

  lemma CallParts(name: string, body: string, s: string)
    requires s == name + Parens(body)
    ensures s == name + ['('] + (body + [')']) && s[|s| - 1] == ')'
    ensures s[..|name|] == name && s[|name| + 1..|s| - 1] == body
  {
  }

  lemma CallIsUnary(s: string, valid: string -> bool)
    requires Trim(s) == s && s != [] && Letter(s[0])
    ensures ParseUnary(s, valid) == ParseFunction(s, valid)
  {
  }

  lemma FunctionText(name: string, body: string, valid: string -> bool)
    requires name != [] && Letters(name)
    ensures ParseUnary(name + Parens(body), valid) == Called(name, body, valid)
  {
    var s := name + Parens(body);
    assert s[0] == name[0] && s[|s| - 1] == ')';
    Trimmed(s);
    CallText(name, body, s, valid);
    CallIsUnary(s, valid);
  }

  lemma GroupText(s: string, valid: string -> bool)
    ensures ParseUnary(Parens(s), valid) == ParseOr(s, valid)
  {
    var t := Parens(s);
    assert t[0] == '(' && t[|t| - 1] == ')' && t[1..|t| - 1] == s;
    Trimmed(t);
  }

  lemma NegationText(s: string, valid: string -> bool)
    ensures ParseUnary(['!'] + s, valid)
         == var inner := ParseUnary(s, valid); if inner.Err? then inner else Ok(Not(inner.value))
  {
    var t := ['!'] + s;
    TrimEndAfter('!', s);
    assert Trim(t) == ['!'] + TrimEnd(s) && (['!'] + TrimEnd(s))[1..] == TrimEnd(s);
    TrimEndTrim(s);
    UnaryTrims(TrimEnd(s), s, valid);
  }

  lemma {:induction false} ParsesUnary(x: Syntax, valid: string -> bool)
    requires Valid(x) && Level(x) == 0
    ensures ParseUnary(Text(x), valid) == Outcome(x, valid)
    decreases x, 0
  {
    match x
    case Call(name, args, gaps) =>
      ArgsOfBody(args, gaps);
      FunctionText(name, Body(args, gaps), valid);
      CalledIsMeaning(name, Body(args, gaps), args, valid);
    case Word(text) =>
      WordText(text, valid);
    case Group(y) =>
      GroupText(Text(y), valid);
      ParsesOr(y, valid);
    case Negation(y) =>
      NegationText(Text(y), valid);
      ParsesUnary(y, valid);
    case Padded(before, y, after) =>
      TrimPadding(before, Text(y), after);
      UnaryTrims(Text(x), Text(y), valid);
      ParsesUnary(y, valid);
  }

  lemma UnaryIsAnd(s: string, valid: string -> bool)
    requires Inert(s, '&', 0)
    ensures ParseAnd(s, valid) == ParseUnary(s, valid)
  {
  }

  lemma AndIsOr(s: string, valid: string -> bool)
    requires Inert(s, '|', 0)
    ensures ParseOr(s, valid) == ParseAnd(s, valid)
  {
  }

  lemma {:induction false} ParsesAnd(x: Syntax, valid: string -> bool)
    requires Valid(x) && Level(x) <= 1
    ensures ParseAnd(Text(x), valid) == Outcome(x, valid)
    decreases x, 1
  {
    if Level(x) == 0 {
      TextInert(x, '&', 0);
      ParsesUnary(x, valid);
      UnaryIsAnd(Text(x), valid);
    } else {
      var l, r := x.left, x.right;
      TextInert(l, '&', 0);
      SplitsBetween(Text(l), Text(r), valid);
      ParsesAnd(l, valid);
      ParsesAnd(r, valid);
    }
  }

  lemma {:induction false} ParsesOr(x: Syntax, valid: string -> bool)
    requires Valid(x)
    ensures ParseOr(Text(x), valid) == Outcome(x, valid)
    decreases x, 2
  {
    if Level(x) <= 1 {
      TextInert(x, '|', 0);
      ParsesAnd(x, valid);
      AndIsOr(Text(x), valid);
    } else {
      var l, r := x.left, x.right;
      TextInert(l, '|', 0);
      SplitsBetween(Text(l), Text(r), valid);
      ParsesOr(l, valid);
      ParsesOr(r, valid);
    }
  }

  /** Every text of the grammar parses to the rule it stands for, or to its leftmost error. */
  lemma ParsesText(x: Syntax, valid: string -> bool)
    requires Valid(x)
    ensures Parse(Text(x), valid) == Outcome(x, valid)
  {
    ParsesOr(x, valid);
    TrimIgnored(Text(x), valid);
  }

  // ---- Writing a rule down ----

  /** Texts that can stand between backticks, and patterns that compile. */
  predicate Printable(r: Rule, valid: string -> bool) {
    match r
    case Host(h) => '`' !in h
    case HostRegex(p) => '`' !in p && valid(p)
    case Path(p) => '`' !in p
    case PathPrefix(p) => '`' !in p
    case PathRegex(p) => '`' !in p && valid(p)
    case Header(n, v) => '`' !in n && '`' !in v
    case HeaderRegex(n, p) => '`' !in n && '`' !in p && valid(p)
    case Query(k, v) => '`' !in k && '`' !in v
    case Method(m) => '`' !in m
    case And(a, b) => Printable(a, valid) && Printable(b, valid)
    case Or(a, b) => Printable(a, valid) && Printable(b, valid)
    case Not(a) => Printable(a, valid)
  }

  function One(name: string, arg: string): Syntax {
    Call(name, [arg], ["", ""])
  }

  function Two(name: string, first: string, second: string): Syntax {
    Call(name, [first, second], ["", ", ", ""])
  }

  /** A rule with parentheses around every operator. */
  function Print(r: Rule): Syntax {
    match r
    case Host(h) => One("Host", h)
    case HostRegex(p) => One("HostRegexp", p)
    case Path(p) => One("Path", p)
    case PathPrefix(p) => One("PathPrefix", p)
    case PathRegex(p) => One("PathRegexp", p)
    case Header(n, v) => Two("Header", n, v)
    case HeaderRegex(n, p) => Two("HeaderRegexp", n, p)
    case Query(k, v) => Two("Query", k, v)
    case Method(m) => One("Method", m)
    case And(a, b) => Group(Conjunction(Padded("", Print(a), " "), Padded(" ", Print(b), "")))
    case Or(a, b) => Group(Disjunction(Padded("", Print(a), " "), Padded(" ", Print(b), "")))
    case Not(a) => Negation(Print(a))
  }

  lemma OneIsValid(name: string, arg: string, valid: string -> bool)
    requires name != [] && Letters(name) && '`' !in arg
    ensures Valid(One(name, arg)) && Level(One(name, arg)) == 0
    ensures Outcome(One(name, arg), valid) == Meaning(name, [arg], valid)
  {
  }

  lemma TwoIsValid(name: string, first: string, second: string, valid: string -> bool)
    requires name != [] && Letters(name) && '`' !in first && '`' !in second
    ensures Valid(Two(name, first, second)) && Level(Two(name, first, second)) == 0
    ensures Outcome(Two(name, first, second), valid) == Meaning(name, [first, second], valid)
  {
  }

  lemma LeafIsValid(r: Rule, valid: string -> bool)
    requires Printable(r, valid) && !r.And? && !r.Or? && !r.Not?
    ensures Valid(Print(r)) && Level(Print(r)) == 0 && Outcome(Print(r), valid) == Ok(r)
  {
    match r
    case Host(h) => OneIsValid("Host", h, valid);
    case HostRegex(p) => OneIsValid("HostRegexp", p, valid);
    case Path(p) => OneIsValid("Path", p, valid);
    case PathPrefix(p) => OneIsValid("PathPrefix", p, valid);
    case PathRegex(p) => OneIsValid("PathRegexp", p, valid);
    case Header(n, v) => TwoIsValid("Header", n, v, valid);
    case HeaderRegex(n, p) => TwoIsValid("HeaderRegexp", n, p, valid);
    case Query(k, v) => TwoIsValid("Query", k, v, valid);
    case Method(m) => OneIsValid("Method", m, valid);
  }

  lemma SpacedIsValid(x: Syntax, valid: string -> bool)
    requires Valid(x) && Level(x) == 0
    ensures Valid(Padded("", x, " ")) && Outcome(Padded("", x, " "), valid) == Outcome(x, valid)
    ensures Valid(Padded(" ", x, "")) && Outcome(Padded(" ", x, ""), valid) == Outcome(x, valid)
  {
  }

  lemma {:induction false} PrintIsValid(r: Rule, valid: string -> bool)
    requires Printable(r, valid)
    ensures Valid(Print(r)) && Level(Print(r)) == 0 && Outcome(Print(r), valid) == Ok(r)
  {
    match r
    case And(a, b) =>
      PrintIsValid(a, valid);
      PrintIsValid(b, valid);
      SpacedIsValid(Print(a), valid);
      SpacedIsValid(Print(b), valid);
      assert Valid(Print(r).inner);
    case Or(a, b) =>
      PrintIsValid(a, valid);
      PrintIsValid(b, valid);
      SpacedIsValid(Print(a), valid);
      SpacedIsValid(Print(b), valid);
      assert Valid(Print(r).inner);
    case Not(a) =>
      PrintIsValid(a, valid);
    case _ =>
      LeafIsValid(r, valid);
  }

  /** A rule that is written down and parsed comes back. */
  lemma PrintParses(r: Rule, valid: string -> bool)
    requires Printable(r, valid)
    ensures Valid(Print(r)) && Parse(Text(Print(r)), valid) == Ok(r)
  {
    PrintIsValid(r, valid);
    ParsesText(Print(r), valid);
  }

  lemma {:induction false} ArgsHaveNoBacktick(s: string, quoted: bool, current: string)
    requires '`' !in current
    ensures forall a :: a in Args(s, quoted, current) ==> '`' !in a
  {
    if s == [] {
    } else {
      if s[0] == '`' {
        ArgsHaveNoBacktick(s[1..], false, []);
        ArgsHaveNoBacktick(s[1..], true, current);
      } else {
        ArgsHaveNoBacktick(s[1..], quoted, if quoted then current + [s[0]] else current);
      }
    }
  }

  lemma BuiltIsPrintable(kind: Kind, args: seq<string>, valid: string -> bool)
    requires Build(kind, args, valid).Ok? && forall a :: a in args ==> '`' !in a
    ensures Printable(Build(kind, args, valid).value, valid)
  {
    assert '`' !in args[0] && '`' !in args[Arity(kind) - 1];
  }

  lemma FunctionIsPrintable(s: string, valid: string -> bool)
    requires ParseFunction(s, valid).Ok?
    ensures Printable(ParseFunction(s, valid).value, valid)
  {
    var input := Trim(s);
    var open := IndexOf(input, '(');
    var args := Args(input[open + 1..|input| - 1], false, []);
    ArgsHaveNoBacktick(input[open + 1..|input| - 1], false, []);
    BuiltIsPrintable(KindOf(input[..open]).value, args, valid);
  }

  lemma {:induction false} UnaryIsPrintable(s: string, valid: string -> bool)
    requires ParseUnary(s, valid).Ok?
    ensures Printable(ParseUnary(s, valid).value, valid)
    decreases |s|, 1
  {
    var input := Trim(s);
    if input != [] && input[0] == '!' {
      UnaryIsPrintable(input[1..], valid);
    } else {
      PrimaryIsPrintable(input, valid);
    }
  }

  lemma {:induction false} PrimaryIsPrintable(s: string, valid: string -> bool)
    requires ParsePrimary(s, valid).Ok?
    ensures Printable(ParsePrimary(s, valid).value, valid)
    decreases |s|, 0
  {
    var input := Trim(s);
    if |input| >= 2 && input[0] == '(' && input[|input| - 1] == ')' {
      OrIsPrintable(input[1..|input| - 1], valid);
    } else {
      FunctionIsPrintable(input, valid);
    }
  }

  lemma {:induction false} AndIsPrintable(s: string, valid: string -> bool)
    requires ParseAnd(s, valid).Ok?
    ensures Printable(ParseAnd(s, valid).value, valid)
    decreases |s|, 2
  {
    match Find(s, '&', START)
    case Some(p) =>
      AndIsPrintable(s[..p], valid);
      AndIsPrintable(s[p + 2..], valid);
    case None =>
      UnaryIsPrintable(s, valid);
  }

  lemma {:induction false} OrIsPrintable(s: string, valid: string -> bool)
    requires ParseOr(s, valid).Ok?
    ensures Printable(ParseOr(s, valid).value, valid)
    decreases |s|, 3
  {
    match Find(s, '|', START)
    case Some(p) =>
      OrIsPrintable(s[..p], valid);
      OrIsPrintable(s[p + 2..], valid);
    case None =>
      AndIsPrintable(s, valid);
  }

  /** Whatever text parses, the rule it parses to can be written down again and parses to itself. */
  lemma NormalForm(s: string, valid: string -> bool)
    requires Parse(s, valid).Ok?
    ensures var r := Parse(s, valid).value;
            Valid(Print(r)) && Parse(Text(Print(r)), valid) == Ok(r)
  {
    OrIsPrintable(Trim(s), valid);
    PrintParses(Parse(s, valid).value, valid);
  }
}
