/** What the rules mean to each other, leaf by leaf and over every combination of `&&`, `||` and `!`. */
module RuleLaws {
  import opened Rules
  import opened Wrappers

  // ---- Letter case ----

  const UPPER := "ABCDEFGHIJKLMNOPQRSTUVWXYZ"
  const LOWER := "abcdefghijklmnopqrstuvwxyz"

  /** `u` and `l` are the two cases of letter number `i`. */
  predicate LetterAt(i: int, u: char, l: char) {
    0 <= i < 26 && u == UPPER[i] && l == LOWER[i]
  }

  ghost predicate CasePair(u: char, l: char) {
    exists i :: LetterAt(i, u, l)
  }

  /** The same character, or the two cases of one ASCII letter. */
  ghost predicate SameLetter(c: char, d: char) {
    c == d || CasePair(c, d) || CasePair(d, c)
  }

  ghost predicate Recasing(s: string, t: string) {
    |s| == |t| && forall i :: 0 <= i < |s| ==> SameLetter(s[i], t[i])
  }

  lemma LetterIsNumber(i: int, u: char, l: char)
    ensures LetterAt(i, u, l) <==> 0 <= i < 26 && u as int == 65 + i && l as int == 97 + i
  {
  }

  lemma CasePairIsShift(u: char, l: char)
    ensures CasePair(u, l) <==> 'A' <= u <= 'Z' && l as int == u as int + 32
  {
    if i :| LetterAt(i, u, l) {
      LetterIsNumber(i, u, l);
    }
    LetterIsNumber(u as int - 65, u, l);
  }

  lemma LowerIsSameLetter(c: char, d: char)
    ensures LowerChar(c) == LowerChar(d) <==> SameLetter(c, d)
  {
    CasePairIsShift(c, d);
    CasePairIsShift(d, c);
  }

  lemma SameIsRecasing(s: string, t: string)
    ensures SameIgnoringCase(s, t) <==> Recasing(t, s)
  {
    if |s| == |t| {
      forall i | 0 <= i < |s|
        ensures LowerChar(s[i]) == LowerChar(t[i]) <==> SameLetter(t[i], s[i])
      {
        LowerIsSameLetter(t[i], s[i]);
      }
    }
  }

  /** A host rule matches exactly the recasings of its host. */
  lemma HostIgnoresCaseExactly(h: string, q: Request)
    ensures Matches(Host(h), q) <==> q.host.Some? && Recasing(h, q.host.value)
  {
    if q.host.Some? {
      SameIsRecasing(q.host.value, h);
    }
  }

  /** A method rule matches exactly the recasings of its method. */
  lemma MethodIgnoresCaseExactly(m: string, q: Request)
    ensures Matches(Method(m), q) <==> q.verb.Some? && Recasing(m, q.verb.value)
  {
    if q.verb.Some? {
      SameIsRecasing(q.verb.value, m);
    }
  }

  lemma RecasingTransfers(a: string, b: string, c: string)
    requires Recasing(a, b)
    ensures Recasing(a, c) <==> Recasing(b, c)
  {
    SameIsRecasing(b, a);
    SameIsRecasing(c, a);
    SameIsRecasing(c, b);
  }

  /** Two rules that no request tells apart. */
  ghost predicate Equivalent(a: Rule, b: Rule) {
    forall q :: Matches(a, q) <==> Matches(b, q)
  }

  /** Two host rules, or two method rules, mean the same exactly when they differ in case only. */
  lemma CaseIsAllThatDiffersExactly(a: string, b: string, q: Request)
    ensures Equivalent(Host(a), Host(b)) <==> Recasing(a, b)
    ensures Equivalent(Method(a), Method(b)) <==> Recasing(a, b)
  {
    RecasingOfItself(b);
    var p := q.(host := Some(b), verb := Some(b));
    HostIgnoresCaseExactly(a, p);
    HostIgnoresCaseExactly(b, p);
    MethodIgnoresCaseExactly(a, p);
    MethodIgnoresCaseExactly(b, p);
    if Recasing(a, b) {
      forall r: Request
        ensures Matches(Host(a), r) <==> Matches(Host(b), r)
        ensures Matches(Method(a), r) <==> Matches(Method(b), r)
      {
        HostIgnoresCaseExactly(a, r);
        HostIgnoresCaseExactly(b, r);
        MethodIgnoresCaseExactly(a, r);
        MethodIgnoresCaseExactly(b, r);
        if r.host.Some? {
          RecasingTransfers(a, b, r.host.value);
        }
        if r.verb.Some? {
          RecasingTransfers(a, b, r.verb.value);
        }
      }
    }
  }

  lemma RecasingOfItself(s: string)
    ensures Recasing(s, s)
  {
  }

  // ---- Paths, headers and patterns ----

  /** Exactly one text makes a path rule match. */
  lemma PathIsExact(q: Request)
    ensures Matches(Path(q.path), q) && forall p :: Matches(Path(p), q) ==> p == q.path
  {
  }

  /** A prefix rule matches exactly when the path rule of some continuation does. */
  lemma PrefixContinuesExactly(p: string, q: Request)
    ensures Matches(PathPrefix(p), q) <==> exists t :: Matches(Path(p + t), q)
  {
    if Matches(PathPrefix(p), q) {
      assert q.path == p + q.path[|p|..];
      assert Matches(Path(p + q.path[|p|..]), q);
    }
  }

  /** A header rule matches for at most one value, for one exactly when the header can be read, and for
      the value that was put there. */
  lemma HeaderHasOneValue(n: string, q: Request)
    ensures forall v, w :: Matches(Header(n, v), q) && Matches(Header(n, w), q) ==> v == w
    ensures (exists v :: Matches(Header(n, v), q)) <==> q.header(n).Some?
    ensures forall v :: Matches(Header(n, v), q.(header := k => if k == n then Some(v) else q.header(k)))
  {
    if q.header(n).Some? {
      assert Matches(Header(n, q.header(n).value), q);
    }
  }

  /** The rules with patterns put to the pattern just the text that the plain rules compare. */
  lemma PatternsTestTheText(n: string, p: string, q: Request)
    ensures Matches(PathRegex(p), q) <==> exists t :: Matches(Path(t), q) && q.regex(p, t)
    ensures Matches(HeaderRegex(n, p), q) <==> exists v :: Matches(Header(n, v), q) && q.regex(p, v)
    ensures q.host.None? ==> !Matches(HostRegex(p), q)
    ensures forall h :: q.host == Some(h) ==> (Matches(HostRegex(p), q) <==> Matches(PathRegex(p), q.(path := h)))
  {
    if q.regex(p, q.path) {
      assert Matches(Path(q.path), q);
    }
    if q.header(n).Some? && q.regex(p, q.header(n).value) {
      assert Matches(Header(n, q.header(n).value), q);
    }
  }

  /** A query rule matches exactly the queries that carry its pair, however they are written. */
  lemma QueryRuleFindsPair(k: string, v: string, params: seq<Param>, q: Request)
    requires AllValid(params)
    ensures q.query == Some(QueryText(params)) ==> (Matches(Query(k, v), q) <==> HasParam(params, k, v))
    ensures q.query.None? ==> !Matches(Query(k, v), q)
  {
    var text := QueryText(params);
    QueryFindsParams(params, k, v);
    assert q.query == Some(text) ==> Matches(Query(k, v), q) == QueryMatches(text, k, v);
  }

  // ---- What a rule looks at ----

  datatype Part = HostPart | PathPart | QueryPart | VerbPart | HeaderPart(name: string) | PatternPart(pattern: string)

  /** The parts of a request that a rule names. */
  function Parts(rule: Rule): set<Part> {
    match rule
    case Host(_) => {HostPart}
    case HostRegex(p) => {HostPart, PatternPart(p)}
    case Path(_) => {PathPart}
    case PathPrefix(_) => {PathPart}
    case PathRegex(p) => {PathPart, PatternPart(p)}
    case Header(n, _) => {HeaderPart(n)}
    case HeaderRegex(n, p) => {HeaderPart(n), PatternPart(p)}
    case Query(_, _) => {QueryPart}
    case Method(_) => {VerbPart}
    case And(a, b) => Parts(a) + Parts(b)
    case Or(a, b) => Parts(a) + Parts(b)
    case Not(r) => Parts(r)
  }

  ghost predicate SamePart(q: Request, r: Request, part: Part) {
    match part
    case HostPart => q.host == r.host
    case PathPart => q.path == r.path
    case QueryPart => q.query == r.query
    case VerbPart => q.verb == r.verb
    case HeaderPart(n) => q.header(n) == r.header(n)
    case PatternPart(p) => forall t :: q.regex(p, t) == r.regex(p, t)
  }

  /** Requests that agree on the parts a rule names are not told apart by it. */
  lemma {:induction false} OnlyNamedPartsMatter(rule: Rule, q: Request, r: Request)
    requires forall part :: part in Parts(rule) ==> SamePart(q, r, part)
    ensures Matches(rule, q) <==> Matches(rule, r)
  {
    match rule
    case And(a, b) =>
      OnlyNamedPartsMatter(a, q, r);
      OnlyNamedPartsMatter(b, q, r);
    case Or(a, b) =>
      OnlyNamedPartsMatter(a, q, r);
      OnlyNamedPartsMatter(b, q, r);
    case Not(s) => OnlyNamedPartsMatter(s, q, r);
    case Host(_) => assert SamePart(q, r, HostPart);
    case HostRegex(p) => assert SamePart(q, r, HostPart) && SamePart(q, r, PatternPart(p));
    case Path(_) => assert SamePart(q, r, PathPart);
    case PathPrefix(_) => assert SamePart(q, r, PathPart);
    case PathRegex(p) => assert SamePart(q, r, PathPart) && SamePart(q, r, PatternPart(p));
    case Header(n, _) => assert SamePart(q, r, HeaderPart(n));
    case HeaderRegex(n, p) => assert SamePart(q, r, HeaderPart(n)) && SamePart(q, r, PatternPart(p));
    case Query(_, _) => assert SamePart(q, r, QueryPart);
    case Method(_) => assert SamePart(q, r, VerbPart);
  }

  // ---- Combinations ----

  /** A leaf that has to match, or has not to. */
  datatype Literal = Literal(leaf: Rule, wanted: bool)

  type Clause = seq<Literal>

  predicate IsLeaf(rule: Rule) {
    !rule.And? && !rule.Or? && !rule.Not?
  }

  ghost predicate Holds(clause: Clause, q: Request) {
    forall i :: 0 <= i < |clause| ==> Matches(clause[i].leaf, q) == clause[i].wanted
  }

  ghost predicate SomeHolds(clauses: seq<Clause>, q: Request) {
    exists i :: 0 <= i < |clauses| && Holds(clauses[i], q)
  }

  ghost predicate OnLeaves(clauses: seq<Clause>) {
    forall i, j :: 0 <= i < |clauses| && 0 <= j < |clauses[i]| ==> IsLeaf(clauses[i][j].leaf)
  }

  function Extended(c: Clause, clauses: seq<Clause>): seq<Clause> {
    seq(|clauses|, i requires 0 <= i < |clauses| => c + clauses[i])
  }

  /** Every clause of the first list joined with every clause of the second. */
  function Product(a: seq<Clause>, b: seq<Clause>): seq<Clause> {
    if a == [] then [] else Extended(a[0], b) + Product(a[1..], b)
  }

  /** The disjunctive normal form of a rule, or of its negation. */
  function Clauses(rule: Rule, wanted: bool): seq<Clause> {
    match rule
    case And(a, b) =>
      if wanted then Product(Clauses(a, true), Clauses(b, true)) else Clauses(a, false) + Clauses(b, false)
    case Or(a, b) =>
      if wanted then Clauses(a, true) + Clauses(b, true) else Product(Clauses(a, false), Clauses(b, false))
    case Not(r) => Clauses(r, !wanted)
    case leaf => [[Literal(leaf, wanted)]]
  }

  lemma JoinHolds(a: Clause, b: Clause, q: Request)
    ensures Holds(a + b, q) <==> Holds(a, q) && Holds(b, q)
  {
    var c := a + b;
    if Holds(c, q) {
      assert forall i :: 0 <= i < |a| ==> a[i] == c[i];
      assert forall i :: 0 <= i < |b| ==> b[i] == c[|a| + i];
    }
  }

  lemma SomeOfBoth(a: seq<Clause>, b: seq<Clause>, q: Request)
    ensures SomeHolds(a + b, q) <==> SomeHolds(a, q) || SomeHolds(b, q)
  {
    var c := a + b;
    if i :| 0 <= i < |a| && Holds(a[i], q) {
      assert c[i] == a[i];
    }
    if i :| 0 <= i < |b| && Holds(b[i], q) {
      assert c[|a| + i] == b[i];
    }
  }

  lemma ExtendedHolds(c: Clause, b: seq<Clause>, q: Request)
    ensures SomeHolds(Extended(c, b), q) <==> Holds(c, q) && SomeHolds(b, q)
  {
    var e := Extended(c, b);
    if i :| 0 <= i < |e| && Holds(e[i], q) {
      JoinHolds(c, b[i], q);
    }
    if Holds(c, q) && SomeHolds(b, q) {
      var i :| 0 <= i < |b| && Holds(b[i], q);
      JoinHolds(c, b[i], q);
      assert Holds(e[i], q);
    }
  }

  lemma {:induction false} ProductHolds(a: seq<Clause>, b: seq<Clause>, q: Request)
    ensures SomeHolds(Product(a, b), q) <==> SomeHolds(a, q) && SomeHolds(b, q)
  {
    if a == [] {
    } else {
      ProductHolds(a[1..], b, q);
      ExtendedHolds(a[0], b, q);
      SomeOfBoth(Extended(a[0], b), Product(a[1..], b), q);
      SomeOfBoth([a[0]], a[1..], q);
      assert a == [a[0]] + a[1..];
      assert SomeHolds([a[0]], q) <==> Holds([a[0]][0], q);
    }
  }

  /** A rule matches exactly when some clause of its normal form does, and fails exactly when some
      clause of the normal form of its negation does. */
  lemma {:induction false} NormalFormExactly(rule: Rule, wanted: bool, q: Request)
    ensures SomeHolds(Clauses(rule, wanted), q) <==> Matches(rule, q) == wanted
  {
    match rule
    case And(a, b) =>
      NormalFormExactly(a, wanted, q);
      NormalFormExactly(b, wanted, q);
      if wanted {
        ProductHolds(Clauses(a, true), Clauses(b, true), q);
      } else {
        SomeOfBoth(Clauses(a, false), Clauses(b, false), q);
      }
    case Or(a, b) =>
      NormalFormExactly(a, wanted, q);
      NormalFormExactly(b, wanted, q);
      if wanted {
        SomeOfBoth(Clauses(a, true), Clauses(b, true), q);
      } else {
        ProductHolds(Clauses(a, false), Clauses(b, false), q);
      }
    case Not(r) => NormalFormExactly(r, !wanted, q);
    case leaf => SingleHolds(leaf, wanted, q);
  }

  lemma SingleHolds(leaf: Rule, wanted: bool, q: Request)
    ensures SomeHolds([[Literal(leaf, wanted)]], q) <==> Matches(leaf, q) == wanted
  {
    var clause: Clause := [Literal(leaf, wanted)];
    assert clause[0].leaf == leaf;
    assert Holds(clause, q) <==> Matches(leaf, q) == wanted;
    assert [clause][0] == clause;
  }

  lemma {:induction false} ProductOnLeaves(a: seq<Clause>, b: seq<Clause>)
    requires OnLeaves(a) && OnLeaves(b)
    ensures OnLeaves(Product(a, b))
  {
    if a == [] {
    } else {
      ProductOnLeaves(a[1..], b);
    }
  }

  /** Only leaves are left in a normal form. */
  lemma {:induction false} NormalFormOnLeaves(rule: Rule, wanted: bool)
    ensures OnLeaves(Clauses(rule, wanted))
  {
    match rule
    case And(a, b) =>
      NormalFormOnLeaves(a, wanted);
      NormalFormOnLeaves(b, wanted);
      if wanted {
        ProductOnLeaves(Clauses(a, true), Clauses(b, true));
      }
    case Or(a, b) =>
      NormalFormOnLeaves(a, wanted);
      NormalFormOnLeaves(b, wanted);
      if !wanted {
        ProductOnLeaves(Clauses(a, false), Clauses(b, false));
      }
    case Not(r) => NormalFormOnLeaves(r, !wanted);
    case _ =>
  }

  /** The laws of Boolean algebra hold of all rules. */
  lemma BooleanLaws(a: Rule, b: Rule, q: Request)
    ensures Matches(Or(a, Not(a)), q) && !Matches(And(a, Not(a)), q)
    ensures Equivalent(Not(Not(a)), a)
    ensures Equivalent(Not(And(a, b)), Or(Not(a), Not(b))) && Equivalent(Not(Or(a, b)), And(Not(a), Not(b)))
    ensures Equivalent(And(a, a), a) && Equivalent(Or(a, a), a)
    ensures Equivalent(And(a, Or(a, b)), a) && Equivalent(Or(a, And(a, b)), a)
  {
  }
}
