/** Finding the server name in the first flight of a TLS connection, so that it can be routed
    without being decrypted. */
module ClientHello {
  import opened Bytes
  import opened Wrappers

  /** What the search ends in. `OutOfRange` is a slice taken past the end of the data. */
  datatype Outcome = Found(host: bytes) | Absent | OutOfRange

  function Number(data: bytes, at: nat): nat
    requires at + 2 <= |data|
  {
    data[at] as int * 256 + data[at + 1]
  }

  // ---- The search ----

  /** Where the extensions of a client hello start and end, when every length before them holds. */
  function Extensions(data: bytes): Option<(nat, nat)> {
    if |data| < 38 || data[0] != 1 || 38 >= |data| then None
    else
      var suites := 39 + data[38] as int;
      if suites + 2 > |data| then None
      else
        var compression := suites + 2 + Number(data, suites);
        if compression + 1 > |data| then None
        else
          var length := compression + 1 + data[compression] as int;
          if length + 2 > |data| then None
          else
            var end := length + 2 + Number(data, length);
            if end > |data| then None else Some((length + 2, end))
  }

  /** The host name of a server name extension: its first entry, if that is one. */
  function HostName(data: bytes, utf8: bytes -> bool): Outcome {
    if |data| < 5 || data[2] != 0 then Absent
    else
      var n := Number(data, 3);
      if 5 + n > |data| then Absent
      else if utf8(data[5..5 + n]) then Found(data[5..5 + n]) else Absent
  }

  /** The search from `at` in extensions that end at `end`. */
  function Search(data: bytes, at: nat, end: nat, utf8: bytes -> bool): Outcome
    requires end <= |data|
    decreases end - at
  {
    if at + 4 > end then Absent
    else
      var n := Number(data, at + 2);
      if Number(data, at) != 0 then Search(data, at + 4 + n, end, utf8)
      else if at + 4 + n > |data| then OutOfRange
      else HostName(data[at + 4..at + 4 + n], utf8)
  }

  function Sni(data: bytes, utf8: bytes -> bool): Outcome {
    match Extensions(data)
    case None => Absent
    case Some((start, end)) => Search(data, start, end, utf8)
  }

  /** A host is reported exactly when its entry, encoded as a host name, opens the list. */
  method ParseSniExtension(data: bytes, utf8: bytes -> bool) returns (name: Outcome)
    ensures name == HostName(data, utf8)
    ensures name.Found? ==> utf8(name.host) && OpensList(data, name.host)
    ensures !name.Found? ==> forall host :: OpensList(data, host) ==> !utf8(host)
  {
    forall host
      ensures HostName(data, utf8) == Found(host) <==> utf8(host) && OpensList(data, host)
    {
      HostNameExactly(data, host, utf8);
    }
    if |data| < 5 {
      return Absent;
    }
    var nameType := data[2];
    if nameType != 0 {
      return Absent;
    }
    var nameLen := Number(data, 3);
    if 5 + nameLen > |data| {
      return Absent;
    }
    var host := data[5..5 + nameLen];
    return if utf8(host) then Found(host) else Absent;
  }

  /** Search a client hello for the server name. */
  method ParseSni(data: bytes, utf8: bytes -> bool) returns (name: Outcome)
    ensures name == Sni(data, utf8)
  {
    var block := FindExtensions(data);
    if block.None? {
      return Absent;
    }
    var (offset, end) := block.value;
    while offset + 4 <= end
      invariant Search(data, offset, end, utf8) == Sni(data, utf8)
      decreases end - offset
    {
      var extType := Number(data, offset);
      var extLen := Number(data, offset + 2);
      offset := offset + 4;
      if extType == 0 {
        if offset + extLen > |data| {
          return OutOfRange;
        }
        name := ParseSniExtension(data[offset..offset + extLen], utf8);
        return;
      }
      offset := offset + extLen;
    }
    return Absent;
  }

  method FindExtensions(data: bytes) returns (block: Option<(nat, nat)>)
    ensures block == Extensions(data)
    ensures block.Some? ==> block.value.1 <= |data|
  {
    if |data| < 38 || data[0] != 1 {
      return None;
    }
    var offset := 1 + 3 + 2 + 32;
    if offset >= |data| {
      return None;
    }
    offset := offset + 1 + data[offset];
    if offset + 2 > |data| {
      return None;
    }
    offset := offset + 2 + Number(data, offset);
    if offset + 1 > |data| {
      return None;
    }
    offset := offset + 1 + data[offset];
    if offset + 2 > |data| {
      return None;
    }
    var length := Number(data, offset);
    offset := offset + 2;
    return if offset + length > |data| then None else Some((offset, offset + length));
  }

  // ---- Well-formed messages ----

  /** An extension (section 4.2 of RFC 8446). */
  datatype Extension = Extension(kind: nat, body: bytes) {
    predicate Valid() {
      kind < 0x1_0000 && |body| < 0x1_0000
    }

    function Encode(): bytes
      requires Valid()
    {
      U16(kind) + U16(|body|) + body
    }
  }

  /** What stands before the extensions of a client hello (section 4.1.2 of RFC 8446); `opening` is
      the handshake length, the version and the random. */
  datatype Front = Front(opening: bytes, session: bytes, suites: bytes, compression: bytes) {
    predicate Valid() {
      |opening| == 37 && |session| < 0x100 && |suites| < 0x1_0000 && |compression| < 0x100
    }

    function Encode(): bytes
      requires Valid()
    {
      [1] + opening + [|session|] + session + U16(|suites|) + suites + [|compression|] + compression
    }
  }

  predicate AllValid(exts: seq<Extension>) {
    forall x :: x in exts ==> x.Valid()
  }

  function EncodeAll(exts: seq<Extension>): bytes
    requires AllValid(exts)
  {
    if exts == [] then [] else exts[0].Encode() + EncodeAll(exts[1..])
  }

  /** The body of the first server name extension. */
  function FirstServerName(exts: seq<Extension>): Option<bytes> {
    if exts == [] then None
    else if exts[0].kind == 0 then Some(exts[0].body)
    else FirstServerName(exts[1..])
  }

  datatype ServerName = ServerName(kind: byte, host: bytes) {
    predicate Valid() {
      |host| < 0x1_0000
    }

    function Encode(): bytes
      requires Valid()
    {
      [kind] + U16(|host|) + host
    }
  }

  function EncodeNames(names: seq<ServerName>): bytes
    requires forall n :: n in names ==> n.Valid()
  {
    if names == [] then [] else names[0].Encode() + EncodeNames(names[1..])
  }

  // ---- What the search finds ----

  /** `part` stands in `data` at `at`. */
  ghost predicate Stands(part: bytes, data: bytes, at: nat) {
    at + |part| <= |data| && data[at..at + |part|] == part
  }

  lemma StandsSplit(a: bytes, b: bytes, data: bytes, at: nat)
    ensures Stands(a + b, data, at) <==> Stands(a, data, at) && Stands(b, data, at + |a|)
  {
    if at + |a + b| <= |data| {
      assert data[at..at + |a + b|] == data[at..at + |a|] + data[at + |a|..at + |a| + |b|];
      assert data[at..at + |a|] == data[at..at + |a + b|][..|a|];
      assert data[at + |a|..at + |a| + |b|] == data[at..at + |a + b|][|a|..];
    }
  }

  lemma NumberStands(data: bytes, at: nat, n: nat)
    requires n < 0x1_0000 && at + 2 <= |data|
    ensures Stands(U16(n), data, at) <==> Number(data, at) == n
  {
    assert data[at..at + 2] == [data[at], data[at + 1]];
    var hi: int, lo: int := data[at], data[at + 1];
    assert (hi * 256 + lo) / 256 == hi && (hi * 256 + lo) % 256 == lo;
  }

  ghost predicate Agree(data: bytes, whole: bytes) {
    forall i :: 0 <= i < |data| && i < |whole| ==> data[i] == whole[i]
  }

  lemma PrefixAgrees(prefix: bytes, data: bytes)
    requires prefix <= data
    ensures Agree(data, prefix)
  {
  }

  lemma AgreeNumber(data: bytes, before: bytes, n: nat, after: bytes)
    requires n < 0x1_0000 && Agree(data, before + U16(n) + after) && |before| + 2 <= |data|
    ensures Number(data, |before|) == n
  {
    var whole := before + U16(n) + after;
    assert whole[|before|] == U16(n)[0] && whole[|before| + 1] == U16(n)[1];
  }

  /** The extensions are found in every message that has them whole, and in none that is cut off. */
  lemma ExtensionsFound(front: Front, n: nat, data: bytes)
    requires front.Valid() && n < 0x1_0000
    requires Agree(data, front.Encode() + U16(n))
    ensures var start := |front.Encode()| + 2;
            Extensions(data) == if |data| < start + n then None else Some((start, start + n))
  {
    var whole := front.Encode() + U16(n);
    var s, c, m := front.session, front.suites, front.compression;
    var upTo := [1] + front.opening + [|s|] + s;
    if |data| > 38 {
      assert whole[0] == 1 && whole[38] == |s|;
      if |upTo| + 2 <= |data| {
        assert whole == upTo + U16(|c|) + (c + [|m|] + m + U16(n));
        AgreeNumber(data, upTo, |c|, c + [|m|] + m + U16(n));
        var k := |upTo| + 2 + |c|;
        if k + 1 <= |data| {
          assert whole[k] == |m|;
          if |front.Encode()| + 2 <= |data| {
            assert whole == front.Encode() + U16(n) + [];
            AgreeNumber(data, front.Encode(), n, []);
          }
        }
      }
    }
  }

  lemma SearchStep(data: bytes, at: nat, end: nat, x: Extension, utf8: bytes -> bool)
    requires x.Valid() && Stands(x.Encode(), data, at) && at + 4 <= end <= |data|
    ensures Search(data, at, end, utf8)
         == if x.kind != 0 then Search(data, at + |x.Encode()|, end, utf8) else HostName(x.body, utf8)
  {
    StandsSplit(U16(x.kind) + U16(|x.body|), x.body, data, at);
    StandsSplit(U16(x.kind), U16(|x.body|), data, at);
    NumberStands(data, at, x.kind);
    NumberStands(data, at + 2, |x.body|);
  }

  /** The search passes over every extension that is not a server name. */
  lemma {:induction false} SearchSkips(data: bytes, at: nat, to: nat, end: nat, exts: seq<Extension>, utf8: bytes -> bool)
    requires AllValid(exts) && FirstServerName(exts) == None
    requires Stands(EncodeAll(exts), data, at) && at + |EncodeAll(exts)| == to <= end <= |data|
    ensures Search(data, at, end, utf8) == Search(data, to, end, utf8)
    decreases |exts|
  {
    if exts == [] {
    } else {
      var x, rest := exts[0], exts[1..];
      StandsSplit(x.Encode(), EncodeAll(rest), data, at);
      SearchStep(data, at, end, x, utf8);
      SearchSkips(data, at + |x.Encode()|, to, end, rest, utf8);
    }
  }

  lemma {:induction false} SearchFinds(data: bytes, at: nat, end: nat, exts: seq<Extension>, utf8: bytes -> bool)
    requires AllValid(exts)
    requires Stands(EncodeAll(exts), data, at) && at + |EncodeAll(exts)| == end
    ensures Search(data, at, end, utf8)
         == match FirstServerName(exts) case None => Absent case Some(body) => HostName(body, utf8)
    decreases |exts|
  {
    if exts == [] {
    } else {
      var x := exts[0];
      StandsSplit(x.Encode(), EncodeAll(exts[1..]), data, at);
      SearchStep(data, at, end, x, utf8);
      if x.kind != 0 {
        SearchFinds(data, at + |x.Encode()|, end, exts[1..], utf8);
      }
    }
  }

  lemma Middle(head: bytes, block: bytes, tail: bytes)
    ensures Agree(head + block + tail, head) && Stands(block, head + block + tail, |head|)
  {
  }

  lemma SniFinds(data: bytes, front: Front, exts: seq<Extension>, utf8: bytes -> bool)
    requires front.Valid() && AllValid(exts) && |EncodeAll(exts)| < 0x1_0000
    requires Agree(data, front.Encode() + U16(|EncodeAll(exts)|))
    requires Stands(EncodeAll(exts), data, |front.Encode()| + 2)
    ensures Sni(data, utf8) == match FirstServerName(exts) case None => Absent case Some(body) => HostName(body, utf8)
  {
    var start, n := |front.Encode()| + 2, |EncodeAll(exts)|;
    ExtensionsFound(front, n, data);
    SearchFinds(data, start, start + n, exts, utf8);
  }

  /** In a well-formed message, whatever follows it, the search finds the first server name extension,
      and it never leaves the data. */
  lemma FindsServerName(front: Front, exts: seq<Extension>, tail: bytes, utf8: bytes -> bool)
    requires front.Valid() && AllValid(exts) && |EncodeAll(exts)| < 0x1_0000
    ensures Sni(front.Encode() + U16(|EncodeAll(exts)|) + EncodeAll(exts) + tail, utf8)
         == match FirstServerName(exts) case None => Absent case Some(body) => HostName(body, utf8)
  {
    var head, block := front.Encode() + U16(|EncodeAll(exts)|), EncodeAll(exts);
    Middle(head, block, tail);
    SniFinds(head + block + tail, front, exts, utf8);
  }

  /** The name reported is that of the first entry, which has to be a host name (section 3 of
      RFC 6066) in UTF-8. */
  lemma FindsFirstHost(names: seq<ServerName>, utf8: bytes -> bool)
    requires (forall n :: n in names ==> n.Valid()) && |EncodeNames(names)| < 0x1_0000
    ensures HostName(U16(|EncodeNames(names)|) + EncodeNames(names), utf8)
         == if names != [] && names[0].kind == 0 && utf8(names[0].host) then Found(names[0].host) else Absent
  {
    if names != [] {
      var list, name, rest := EncodeNames(names), names[0], EncodeNames(names[1..]);
      var data := U16(|list|) + list;
      assert list == [name.kind] + U16(|name.host|) + name.host + rest;
      assert data[2] == list[0] == name.kind;
      assert data[3..5] == list[1..3] == U16(|name.host|);
      NumberStands(data, 3, |name.host|);
      assert data[5..5 + |name.host|] == list[3..3 + |name.host|] == name.host;
    }
  }

  /** The first entry of the list in `data` is the host name `host`. */
  ghost predicate OpensList(data: bytes, host: bytes) {
    |data| >= 2 && |host| < 0x1_0000 && ServerName(0, host).Encode() <= data[2..]
  }

  lemma HostNameExactly(data: bytes, host: bytes, utf8: bytes -> bool)
    ensures HostName(data, utf8) == Found(host) <==> utf8(host) && OpensList(data, host)
  {
    if OpensList(data, host) {
      EntryOpens(data, host);
    } else if HostName(data, utf8) == Found(host) {
      NumberBack(data, 3);
      EntryIs(data, host);
    }
  }

  lemma EntryOpens(data: bytes, host: bytes)
    requires OpensList(data, host)
    ensures |data| >= 5 + |host| && data[2] == 0 && Number(data, 3) == |host| && data[5..5 + |host|] == host
  {
    var e := ServerName(0, host).Encode();
    assert Stands(e, data, 2) by {
      assert data[2..][..|e|] == e;
    }
    StandsSplit([0] + U16(|host|), host, data, 2);
    StandsSplit([0], U16(|host|), data, 2);
    NumberStands(data, 3, |host|);
    assert data[2..3] == [data[2]];
  }

  lemma EntryIs(data: bytes, host: bytes)
    requires 5 + |host| <= |data| && |host| < 0x1_0000 && data[2] == 0 && data[5..5 + |host|] == host
    requires Stands(U16(|host|), data, 3)
    ensures OpensList(data, host)
  {
    assert data[2..3] == [0];
    StandsSplit([0], U16(|host|), data, 2);
    StandsSplit([0] + U16(|host|), host, data, 2);
    var e := ServerName(0, host).Encode();
    assert data[2..][..|e|] == data[2..2 + |e|] == e;
  }

  /** No name is reported from a message that has not arrived whole. */
  lemma CutOffIsAbsent(front: Front, exts: seq<Extension>, k: nat, utf8: bytes -> bool)
    requires front.Valid() && AllValid(exts) && |EncodeAll(exts)| < 0x1_0000
    requires k < |front.Encode() + U16(|EncodeAll(exts)|) + EncodeAll(exts)|
    ensures Sni((front.Encode() + U16(|EncodeAll(exts)|) + EncodeAll(exts))[..k], utf8) == Absent
  {
    var block := EncodeAll(exts);
    ExtensionsFound(front, |block|, (front.Encode() + U16(|block|) + block)[..k]);
  }

  // ---- When the search leaves the data ----

  /** `data` holds a server name extension that is declared longer than what is left of the data,
      after `exts` and within the `declared` length of all extensions. */
  ghost predicate Overrun(data: bytes, front: Front, declared: nat, exts: seq<Extension>, n: nat) {
    && front.Valid() && declared < 0x1_0000
    && front.Encode() + U16(declared) <= data
    && var start := |front.Encode()| + 2;
       && start + declared <= |data|
       && LongServerName(data, start, start + declared, exts, n)
  }

  ghost predicate LongServerName(data: bytes, at: nat, end: nat, exts: seq<Extension>, n: nat) {
    && AllValid(exts) && FirstServerName(exts) == None && n < 0x1_0000
    && Stands(EncodeAll(exts) + U16(0) + U16(n), data, at)
    && at + |EncodeAll(exts)| + 4 <= end && |data| < at + |EncodeAll(exts)| + 4 + n
  }

  lemma SearchLeaves(data: bytes, at: nat, end: nat, exts: seq<Extension>, n: nat, utf8: bytes -> bool)
    requires LongServerName(data, at, end, exts, n) && end <= |data|
    ensures Search(data, at, end, utf8) == OutOfRange
  {
    var block := EncodeAll(exts);
    StandsSplit(block + U16(0), U16(n), data, at);
    StandsSplit(block, U16(0), data, at);
    TooLong(data, at + |block|, end, n, utf8);
    SearchSkips(data, at, at + |block|, end, exts, utf8);
  }

  lemma TooLong(data: bytes, at: nat, end: nat, n: nat, utf8: bytes -> bool)
    requires n < 0x1_0000 && at + 4 <= end <= |data| < at + 4 + n
    requires Stands(U16(0), data, at) && Stands(U16(n), data, at + 2)
    ensures Search(data, at, end, utf8) == OutOfRange
  {
    NumberStands(data, at, 0);
    NumberStands(data, at + 2, n);
  }

  lemma OverrunLeaves(data: bytes, front: Front, declared: nat, exts: seq<Extension>, n: nat, utf8: bytes -> bool)
    requires Overrun(data, front, declared, exts, n)
    ensures Sni(data, utf8) == OutOfRange
  {
    var start := |front.Encode()| + 2;
    PrefixAgrees(front.Encode() + U16(declared), data);
    ExtensionsFound(front, declared, data);
    SearchLeaves(data, start, start + declared, exts, n, utf8);
  }

  lemma NumberBack(data: bytes, at: nat)
    requires at + 2 <= |data|
    ensures Number(data, at) < 0x1_0000 && Stands(U16(Number(data, at)), data, at)
  {
    NumberStands(data, at, Number(data, at));
  }

  lemma ExtensionBack(data: bytes, at: nat) returns (x: Extension)
    requires at + 4 <= |data| && at + 4 + Number(data, at + 2) <= |data|
    ensures x.Valid() && x.kind == Number(data, at) && |x.body| == Number(data, at + 2)
    ensures Stands(x.Encode(), data, at)
  {
    NumberBack(data, at);
    NumberBack(data, at + 2);
    x := Extension(Number(data, at), data[at + 4..at + 4 + Number(data, at + 2)]);
    StandsSplit(U16(x.kind), U16(|x.body|), data, at);
    StandsSplit(U16(x.kind) + U16(|x.body|), x.body, data, at);
  }

  lemma LongServerNameLater(data: bytes, at: nat, end: nat, x: Extension, exts: seq<Extension>, n: nat)
    requires x.Valid() && x.kind != 0 && Stands(x.Encode(), data, at)
    requires LongServerName(data, at + |x.Encode()|, end, exts, n)
    ensures LongServerName(data, at, end, [x] + exts, n)
  {
    assert ([x] + exts)[1..] == exts;
    var e, block := x.Encode(), EncodeAll(exts);
    StandsSplit(e, block + U16(0) + U16(n), data, at);
    assert e + (block + U16(0) + U16(n)) == e + block + U16(0) + U16(n);
  }

  lemma {:induction false} SearchOverruns(data: bytes, at: nat, end: nat, utf8: bytes -> bool)
      returns (exts: seq<Extension>, n: nat)
    requires at <= end <= |data| && Search(data, at, end, utf8) == OutOfRange
    ensures LongServerName(data, at, end, exts, n)
    decreases end - at
  {
    if Number(data, at) == 0 {
      exts, n := [], Number(data, at + 2);
      NumberBack(data, at);
      NumberBack(data, at + 2);
      StandsSplit(U16(0), U16(n), data, at);
      assert [] + U16(0) + U16(n) == U16(0) + U16(n);
    } else {
      var x := ExtensionBack(data, at);
      exts, n := SearchOverruns(data, at + |x.Encode()|, end, utf8);
      LongServerNameLater(data, at, end, x, exts, n);
      exts := [x] + exts;
    }
  }

  lemma JoinUp(data: bytes, i: nat, j: nat, k: nat)
    requires i <= j <= k <= |data|
    ensures data[..i] + data[i..j] + data[j..k] == data[..k]
  {
  }

  lemma FrontText(data: bytes, suites: nat, compression: nat, length: nat) returns (front: Front)
    requires 39 <= suites && suites + 2 <= compression < length <= |data| && data[0] == 1
    requires suites == 39 + data[38] as int && compression == suites + 2 + Number(data, suites)
    requires length == compression + 1 + data[compression] as int
    ensures front.Valid() && front.Encode() == data[..length]
  {
    NumberBack(data, suites);
    front := Front(data[1..38], data[39..suites], data[suites + 2..compression], data[compression + 1..length]);
    assert [1] + data[1..38] == data[..38];
    assert [data[38]] == data[38..39] && [data[compression]] == data[compression..compression + 1];
    JoinUp(data, 38, 39, suites);
    JoinUp(data, suites, suites + 2, compression);
    JoinUp(data, compression, compression + 1, length);
  }

  /** The front of any data in which the extensions are found. */
  lemma FrontBack(data: bytes) returns (front: Front)
    requires Extensions(data).Some?
    ensures front.Valid() && |front.Encode()| + 2 == Extensions(data).value.0
    ensures var (start, end) := Extensions(data).value;
            start <= end <= |data| && end - start < 0x1_0000 && front.Encode() + U16(end - start) <= data
  {
    var (start, end) := Extensions(data).value;
    var suites := 39 + data[38] as int;
    front := FrontText(data, suites, suites + 2 + Number(data, suites), start - 2);
    NumberBack(data, start - 2);
    JoinUp(data, start - 2, start, start);
  }

  /** The search leaves the data exactly when the first server name extension is declared longer than
      the data that is left; the declared length of all extensions does not prevent it. */
  lemma LeavesDataExactly(data: bytes, utf8: bytes -> bool)
    ensures Sni(data, utf8) == OutOfRange
       <==> exists front, declared, exts, n :: Overrun(data, front, declared, exts, n)
  {
    if Sni(data, utf8) == OutOfRange {
      var front := FrontBack(data);
      var (start, end) := Extensions(data).value;
      var exts, n := SearchOverruns(data, start, end, utf8);
      assert Overrun(data, front, end - start, exts, n);
    }
    if front, declared, exts, n :| Overrun(data, front, declared, exts, n) {
      OverrunLeaves(data, front, declared, exts, n, utf8);
    }
  }

  /** A client hello whose only extension is a server name declared as long as lengths go, and nothing
      of it there. */
  function HollowName(): bytes {
    Front(seq(37, _ => 0), [], [], []).Encode() + U16(4) + (U16(0) + U16(0xffff))
  }

  /** The program hands the search a buffer of at least 1019 and at most 16379 octets, zero after the
      message; on this message the slice is out of range with every such rest. */
  lemma LeavesDataOnHollowName(rest: bytes, utf8: bytes -> bool)
    requires |rest| < 0xffff
    ensures Sni(HollowName() + rest, utf8) == OutOfRange
  {
    var front := Front(seq(37, _ => 0), [], [], []);
    var head, tail := front.Encode() + U16(4), U16(0) + U16(0xffff);
    var data := HollowName() + rest;
    Middle(head, tail, rest);
    assert head + tail + rest == data && EncodeAll([]) + U16(0) + U16(0xffff) == tail;
    assert head <= data && |data| == |head| + 4 + |rest|;
    assert Overrun(data, front, 4, [], 0xffff);
    OverrunLeaves(data, front, 4, [], 0xffff, utf8);
  }
}
