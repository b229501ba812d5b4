/** Routing rules and what they match. */
module Rules {
  import opened Sequences
  import opened Wrappers

  /** Regular expressions are kept as their patterns; a request decides what they match. */
  datatype Rule =
    | Host(host: string)
    | HostRegex(pattern: string)
    | Path(path: string)
    | PathPrefix(prefix: string)
    | PathRegex(pattern: string)
    | Header(name: string, value: string)
    | HeaderRegex(name: string, pattern: string)
    | Query(key: string, value: string)
    | Method(verb: string)
    | And(left: Rule, right: Rule)
    | Or(left: Rule, right: Rule)
    | Not(inner: Rule)

  /** A request as a rule sees it: `header` looks up a header that reads as text, and `regex` says
      whether a text matches a pattern. */
  datatype Request = Request(host: Option<string>, path: string, query: Option<string>, verb: Option<string>,
                             header: string -> Option<string>, regex: (string, string) -> bool)

  function LowerChar(c: char): char {
    if 'A' <= c <= 'Z' then ((c as int) + 32) as char else c
  }

  function Lower(s: string): (r: string)
    ensures |r| == |s|
  {
    seq(|s|, i requires 0 <= i < |s| => LowerChar(s[i]))
  }

  predicate SameIgnoringCase(s: string, t: string) {
    |s| == |t| && forall i :: 0 <= i < |s| ==> LowerChar(s[i]) == LowerChar(t[i])
  }

  lemma SameIsLower(s: string, t: string)
    ensures SameIgnoringCase(s, t) <==> Lower(s) == Lower(t)
  {
    if Lower(s) == Lower(t) {
      forall i | 0 <= i < |s|
        ensures LowerChar(s[i]) == LowerChar(t[i])
      {
        assert Lower(s)[i] == Lower(t)[i];
      }
    }
  }

  predicate Matches(rule: Rule, q: Request) {
    match rule
    case Host(h) => q.host.Some? && SameIgnoringCase(q.host.value, h)
    case HostRegex(p) => q.host.Some? && q.regex(p, q.host.value)
    case Path(p) => q.path == p
    case PathPrefix(p) => p <= q.path
    case PathRegex(p) => q.regex(p, q.path)
    case Header(n, v) => q.header(n) == Some(v)
    case HeaderRegex(n, p) => q.header(n).Some? && q.regex(p, q.header(n).value)
    case Query(k, v) => q.query.Some? && QueryMatches(q.query.value, k, v)
    case Method(m) => q.verb.Some? && SameIgnoringCase(q.verb.value, m)
    case And(a, b) => Matches(a, q) && Matches(b, q)
    case Or(a, b) => Matches(a, q) || Matches(b, q)
    case Not(r) => !Matches(r, q)
  }

  // ---- Hosts a rule insists on ----

  function Hosts(rule: Rule): seq<string> {
    match rule
    case Host(h) => [h]
    case And(a, b) => Hosts(a) + Hosts(b)
    case _ => []
  }

  /** A rule matches only requests for every one of its extracted hosts, so it can be looked up by
      any of them. */
  lemma {:induction false} HostsAreNecessary(rule: Rule, q: Request, h: string)
    requires h in Hosts(rule) && Matches(rule, q)
    ensures q.host.Some? && Lower(q.host.value) == Lower(h)
  {
    match rule
    case Host(_) => SameIsLower(q.host.value, h);
    case And(a, b) =>
      if h in Hosts(a) {
        HostsAreNecessary(a, q, h);
      } else {
        HostsAreNecessary(b, q, h);
      }
    case _ =>
  }

  // ---- Query parameters ----

  /** The pieces of `s` between the separators `c`. */
  function Pieces(s: string, c: char): (r: seq<string>)
    ensures r != []
    decreases |s|
  {
    var i := IndexOf(s, c);
    if i == |s| then [s] else [s[..i]] + Pieces(s[i + 1..], c)
  }

  function HexValue(c: char): (v: Option<int>)
    ensures v.Some? ==> 0 <= v.value < 16
  {
    if '0' <= c <= '9' then Some(c as int - '0' as int)
    else if 'a' <= c <= 'f' then Some(c as int - 'a' as int + 10)
    else if 'A' <= c <= 'F' then Some(c as int - 'A' as int + 10)
    else None
  }

  /** The value of a hexadecimal digit is its place among the digits, in either case. */
  lemma HexValueExactly(c: char, v: int)
    ensures HexValue(c) == Some(v) <==> 0 <= v < 16 && ("0123456789abcdef"[v] == c || "0123456789ABCDEF"[v] == c)
  {
  }

  /** How many of the first two characters are hexadecimal digits in front of anything else. */
  function HexRun(s: string): (n: nat)
    ensures n <= 2 && n <= |s| && forall k :: 0 <= k < n ==> HexValue(s[k]).Some?
  {
    if s == [] || HexValue(s[0]).None? then 0
    else if |s| == 1 || HexValue(s[1]).None? then 1
    else 2
  }

  /** How many characters the decoder takes from the front of `s`, and what it makes of them. */
  function Taken(s: string): (n: nat)
    requires s != []
    ensures 1 <= n <= |s|
  {
    if s[0] == '%' then 1 + HexRun(s[1..]) else 1
  }

  function Given(s: string): string
    requires s != []
  {
    if s[0] == '%' then
      if HexRun(s[1..]) == 2 then
        assert HexValue(s[1..][0]).Some? && HexValue(s[1..][1]).Some?;
        [(16 * HexValue(s[1]).value + HexValue(s[2]).value) as char]
      else s[..Taken(s)]
    else [if s[0] == '+' then ' ' else s[0]]
  }

  function UrlDecoded(s: string): string {
    if s == [] then [] else Given(s) + UrlDecoded(s[Taken(s)..])
  }

  /** Look two characters ahead, taking each one that is a hexadecimal digit. */
  method TakeHex(input: string) returns (n: nat)
    ensures n == HexRun(input)
  {
    n := 0;
    for k := 0 to 2
      invariant n == if k <= HexRun(input) then k else HexRun(input)
    {
      if n < |input| && HexValue(input[n]).Some? {
        n := n + 1;
      }
    }
  }

  /** Decode a query component. */
  method UrlDecode(input: string) returns (result: string)
    ensures result == UrlDecoded(input)
  {
    result := [];
    var chars := input;
    while chars != []
      invariant result + UrlDecoded(chars) == UrlDecoded(input)
      decreases |chars|
    {
      ghost var taken, given := Taken(chars), Given(chars);
      ghost var after := UrlDecoded(chars[taken..]);
      ghost var was := result;
      assert (was + given) + after == was + (given + after);
      if chars[0] == '%' {
        var n := TakeHex(chars[1..]);
        if n == 2 {
          assert HexValue(chars[1..][0]).Some? && HexValue(chars[1..][1]).Some?;
          result := result + [(16 * HexValue(chars[1]).value + HexValue(chars[2]).value) as char];
        } else {
          result := result + chars[..n + 1];
        }
        chars := chars[n + 1..];
      } else {
        result := result + [if chars[0] == '+' then ' ' else chars[0]];
        chars := chars[1..];
      }
      assert result == was + given;
    }
  }

  /** A piece with a key and a value, both as decoded. */
  predicate PairMatches(pair: string, key: string, value: string) {
    var i := IndexOf(pair, '=');
    i < |pair| && UrlDecoded(pair[..i]) == key && UrlDecoded(pair[i + 1..]) == value
  }

  predicate QueryMatches(query: string, key: string, value: string) {
    exists i :: 0 <= i < |Pieces(query, '&')| && PairMatches(Pieces(query, '&')[i], key, value)
  }

  method ComparePair(pair: string, key: string, value: string) returns (same: bool)
    ensures same == PairMatches(pair, key, value)
  {
    var at := IndexOf(pair, '=');
    if at == |pair| {
      return false;
    }
    var decodedKey := UrlDecode(pair[..at]);
    var decodedValue := UrlDecode(pair[at + 1..]);
    return decodedKey == key && decodedValue == value;
  }

  /** The first match in the query, piece by piece. */
  method QueryParamMatches(query: string, key: string, value: string) returns (found: bool)
    ensures found == QueryMatches(query, key, value)
  {
    var pieces := Pieces(query, '&');
    for i := 0 to |pieces|
      invariant forall k :: 0 <= k < i ==> !PairMatches(pieces[k], key, value)
    {
      var same := ComparePair(pieces[i], key, value);
      if same {
        return true;
      }
    }
    return false;
  }

  // ---- Encoded queries ----

  /** What separates names, and what separates values. */
  const AFTER_NAME := "&="
  const AFTER_VALUE := "&"

  /** `unit` is a way to write `c` in a query: as itself if it is not `reserved`, as a plus sign for a
      space, or as a percent sign and two hexadecimal digits of either case. */
  predicate Writes(unit: string, c: char, reserved: string) {
    || (|unit| == 1 && unit[0] !in "%+" && unit[0] !in reserved && unit[0] == c)
    || (|unit| == 1 && unit[0] == '+' && c == ' ')
    || (|unit| == 3 && unit[0] == '%' && HexValue(unit[1]).Some? && HexValue(unit[2]).Some?
        && 16 * HexValue(unit[1]).value + HexValue(unit[2]).value == c as int)
  }

  predicate Spells(units: seq<string>, s: string, reserved: string) {
    |units| == |s| && forall i :: 0 <= i < |s| ==> Writes(units[i], s[i], reserved)
  }

  function Concat(units: seq<string>): string {
    if units == [] then [] else units[0] + Concat(units[1..])
  }

  lemma DecodesUnit(u: string, c: char, reserved: string, rest: string)
    requires Writes(u, c, reserved)
    ensures UrlDecoded(u + rest) == [c] + UrlDecoded(rest)
  {
    var e := u + rest;
    if u[0] == '%' {
      assert e[1..][0] == u[1] && e[1..][1] == u[2];
    }
    assert Given(e) == [c] && Taken(e) == |u|;
    assert e[|u|..] == rest;
  }

  /** Decoding undoes every way to write a text. */
  lemma {:induction false} DecodesSpelling(units: seq<string>, s: string, reserved: string)
    requires Spells(units, s, reserved)
    ensures UrlDecoded(Concat(units)) == s
  {
    if units == [] {
    } else {
      DecodesSpelling(units[1..], s[1..], reserved);
      DecodesUnit(units[0], s[0], reserved, Concat(units[1..]));
      assert s == [s[0]] + s[1..];
    }
  }

  lemma {:induction false} SpellingHasNo(units: seq<string>, s: string, reserved: string, c: char)
    requires Spells(units, s, reserved) && c in reserved && (c == '&' || c == '=')
    ensures c !in Concat(units)
  {
    if units == [] {
    } else {
      SpellingHasNo(units[1..], s[1..], reserved, c);
      assert Writes(units[0], s[0], reserved);
      assert c !in units[0];
    }
  }

  /** No plus sign and no complete percent escape. */
  ghost predicate Unescaped(s: string) {
    forall i :: 0 <= i < |s| ==> UnescapedAt(s, i)
  }

  predicate UnescapedAt(s: string, i: nat)
    requires i < |s|
  {
    s[i] != '+' && (s[i] == '%' ==> HexRun(s[i + 1..]) < 2)
  }

  lemma UnescapedShift(s: string, n: nat, i: nat)
    requires n <= i < |s|
    ensures UnescapedAt(s, i) == UnescapedAt(s[n..], i - n)
  {
    assert s[n..][i - n + 1..] == s[i + 1..];
  }

  lemma UnescapedLater(s: string, n: nat)
    requires n <= |s|
    ensures Unescaped(s[n..]) <==> forall i :: n <= i < |s| ==> UnescapedAt(s, i)
  {
    if Unescaped(s[n..]) {
      forall i | n <= i < |s|
        ensures UnescapedAt(s, i)
      {
        UnescapedShift(s, n, i);
      }
    }
    if forall i :: n <= i < |s| ==> UnescapedAt(s, i) {
      forall j | 0 <= j < |s[n..]|
        ensures UnescapedAt(s[n..], j)
      {
        UnescapedShift(s, n, n + j);
      }
    }
  }

  lemma {:induction false} DecodingShrinks(s: string)
    ensures |UrlDecoded(s)| <= |s|
  {
    if s == [] {
    } else {
      DecodingShrinks(s[Taken(s)..]);
    }
  }

  lemma UnescapedHead(s: string)
    requires s != []
    ensures Given(s) == s[..Taken(s)] <==> forall i :: 0 <= i < Taken(s) ==> UnescapedAt(s, i)
    ensures Given(s) != s[..Taken(s)] ==> |Given(s)| < Taken(s) || Given(s)[0] != s[0]
  {
    assert UnescapedAt(s, 0) <==> s[0] != '+' && (s[0] == '%' ==> HexRun(s[1..]) < 2);
    if s[0] == '%' {
      forall i | 1 <= i < Taken(s)
        ensures UnescapedAt(s, i)
      {
        assert s[i] == s[1..][i - 1];
      }
    }
  }

  lemma SplitsSame(given: string, u: string, s: string, n: nat)
    requires 0 < n <= |s| && given != [] && |u| <= |s| - n
    requires given != s[..n] ==> |given| < n || given[0] != s[0]
    ensures given + u == s <==> given == s[..n] && u == s[n..]
  {
    if given + u == s {
      assert (given + u)[0] == given[0];
      assert s[..n] == given && s[n..] == u;
    }
    assert s == s[..n] + s[n..];
  }

  /** Decoding leaves a text as it is exactly when it holds no plus sign and no complete escape; a
      percent sign without two hexadecimal digits is kept, with the digit that follows it. */
  lemma {:induction false} DecodingKeepsExactly(s: string)
    ensures UrlDecoded(s) == s <==> Unescaped(s)
  {
    if s == [] {
    } else {
      var n := Taken(s);
      DecodingKeepsExactly(s[n..]);
      DecodingShrinks(s[n..]);
      UnescapedHead(s);
      UnescapedLater(s, n);
      SplitsSame(Given(s), UrlDecoded(s[n..]), s, n);
    }
  }

  /** A key and a value, or just a name, and how they are written. */
  datatype Param =
    | Pair(key: string, value: string, keyUnits: seq<string>, valueUnits: seq<string>)
    | Flag(name: string, nameUnits: seq<string>)
  {
    predicate Valid() {
      match this
      case Pair(key, value, keyUnits, valueUnits) =>
        Spells(keyUnits, key, AFTER_NAME) && Spells(valueUnits, value, AFTER_VALUE)
      case Flag(name, nameUnits) => Spells(nameUnits, name, AFTER_NAME)
    }

    function Text(): string {
      match this
      case Pair(_, _, keyUnits, valueUnits) => Concat(keyUnits) + ['='] + Concat(valueUnits)
      case Flag(_, nameUnits) => Concat(nameUnits)
    }

    predicate Carries(k: string, v: string) {
      Pair? && key == k && value == v
    }
  }

  ghost predicate AllValid(params: seq<Param>) {
    forall i :: 0 <= i < |params| ==> params[i].Valid()
  }

  ghost predicate HasParam(params: seq<Param>, key: string, value: string) {
    exists i :: 0 <= i < |params| && params[i].Carries(key, value)
  }

  function QueryText(params: seq<Param>): string {
    if params == [] then []
    else if |params| == 1 then params[0].Text()
    else params[0].Text() + ['&'] + QueryText(params[1..])
  }

  lemma IndexOfFirst(a: string, c: char, b: string)
    requires c !in a
    ensures IndexOf(a + [c] + b, c) == |a| && IndexOf(a, c) == |a|
  {
    var s := a + [c] + b;
    assert s[|a|] == c;
    assert forall k :: 0 <= k < |a| ==> s[k] == a[k];
  }

  lemma PiecesSplit(a: string, c: char, b: string)
    requires c !in a
    ensures Pieces(a + [c] + b, c) == [a] + Pieces(b, c) && Pieces(a, c) == [a]
  {
    IndexOfFirst(a, c, b);
    assert (a + [c] + b)[..|a|] == a && (a + [c] + b)[|a| + 1..] == b;
  }

  lemma PairParamMatches(p: Param, key: string, value: string)
    requires p.Valid() && p.Pair?
    ensures PairMatches(p.Text(), key, value) <==> p.Carries(key, value)
    ensures '&' !in p.Text()
  {
    var k, v := Concat(p.keyUnits), Concat(p.valueUnits);
    SpellingHasNo(p.keyUnits, p.key, AFTER_NAME, '=');
    SpellingHasNo(p.keyUnits, p.key, AFTER_NAME, '&');
    SpellingHasNo(p.valueUnits, p.value, AFTER_VALUE, '&');
    IndexOfFirst(k, '=', v);
    assert p.Text()[..|k|] == k && p.Text()[|k| + 1..] == v;
    DecodesSpelling(p.keyUnits, p.key, AFTER_NAME);
    DecodesSpelling(p.valueUnits, p.value, AFTER_VALUE);
  }

  lemma ParamMatches(p: Param, key: string, value: string)
    requires p.Valid()
    ensures PairMatches(p.Text(), key, value) <==> p.Carries(key, value)
    ensures '&' !in p.Text()
  {
    if p.Pair? {
      PairParamMatches(p, key, value);
    } else {
      SpellingHasNo(p.nameUnits, p.name, AFTER_NAME, '=');
      SpellingHasNo(p.nameUnits, p.name, AFTER_NAME, '&');
    }
  }

  lemma {:induction false} PiecesOfQuery(params: seq<Param>)
    requires params != [] && AllValid(params)
    ensures |Pieces(QueryText(params), '&')| == |params|
    ensures forall i :: 0 <= i < |params| ==> Pieces(QueryText(params), '&')[i] == params[i].Text()
  {
    var text := params[0].Text();
    ParamMatches(params[0], [], []);
    if |params| == 1 {
      PiecesSplit(text, '&', []);
    } else {
      PiecesSplit(text, '&', QueryText(params[1..]));
      PiecesOfQuery(params[1..]);
    }
  }

  /** A query matches exactly when the pair is one of its parameters, however each character was
      written; names without a value never match, and a value may hold further equals signs. */
  lemma QueryFindsParams(params: seq<Param>, key: string, value: string)
    requires AllValid(params)
    ensures QueryMatches(QueryText(params), key, value) <==> HasParam(params, key, value)
  {
    if params != [] {
      PiecesOfQuery(params);
      forall i | 0 <= i < |params|
        ensures PairMatches(Pieces(QueryText(params), '&')[i], key, value) <==> params[i].Carries(key, value)
      {
        ParamMatches(params[i], key, value);
      }
    }
  }
}
