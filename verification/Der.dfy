/** The DER encoder behind certificate signing requests, and a strict reader for what it writes. */
module Der {
  import opened Arithmetic
  import opened Bytes
  import opened Wrappers

  const SEQUENCE: byte := 0x30
  const SET: byte := 0x31
  const BIT_STRING: byte := 0x03
  const OCTET_STRING: byte := 0x04
  const OBJECT_ID: byte := 0x06
  const UTF8_STRING: byte := 0x0c
  const DNS_NAME: byte := 0x82
  const ATTRIBUTES: byte := 0xa0

  /** The longest content whose length the encoder can write, plus one. */
  const LENGTH_LIMIT := 0x1_0000

  // ---- Writing ----

  function Length(n: nat): bytes {
    if n < 128 then [n]
    else if n < 256 then [0x81, n]
    else [0x82, n / 256 % 256, n % 256]
  }

  /** Append the length octets of `len` to `output`. A strict reader of what was appended gets the
      length back, from just those octets, exactly when two of them are enough for it. */
  method EncodeLength(output: bytes, len: nat) returns (result: bytes)
    ensures result == output + Length(len)
    ensures ReadLength(result[|output|..]) == Some((len, |result| - |output|)) <==> len < LENGTH_LIMIT
  {
    ReadLengthBack(len, []);
    assert Length(len) + [] == Length(len) == (output + Length(len))[|output|..];
    result := output;
    if len < 128 {
      result := result + [len];
    } else if len < 256 {
      result := result + [0x81];
      result := result + [len];
    } else {
      result := result + [0x82];
      result := result + [len / 256 % 256];
      result := result + [len % 256];
    }
  }

  /** A tag, the length of the content, and the content. */
  function Wrap(tag: byte, data: bytes): bytes {
    [tag] + Length(|data|) + data
  }

  /** An element, which reads back as a whole exactly when its length fits. */
  method WrapWith(tag: byte, data: bytes) returns (result: bytes)
    ensures result == Wrap(tag, data)
    ensures ReadTlv(result) == Some(Tlv(tag, data, [])) <==> |data| < LENGTH_LIMIT
  {
    ReadsBackExactly(tag, data, []);
    assert Wrap(tag, data) + [] == Wrap(tag, data);
    result := EncodeLength([tag], |data|);
    result := result + data;
  }

  method WrapBitString(data: bytes) returns (result: bytes)
    ensures result == BitString(data)
  {
    result := EncodeLength([BIT_STRING], |data| + 1);
    result := result + [0];
    result := result + data;
    assert [BIT_STRING] + Length(|data| + 1) + [0] + data == [BIT_STRING] + Length(|[0] + data|) + ([0] + data);
  }

  /** A bit string without unused bits. */
  function BitString(data: bytes): bytes {
    Wrap(BIT_STRING, [0] + data)
  }

  // ---- Reading ----

  datatype Tlv = Tlv(tag: byte, content: bytes, rest: bytes)

  /** A definite length in its shortest form: the length and the octets it took (sections 8.1.3 and
      10.1 of ITU-T X.690). */
  function ReadLength(b: bytes): Option<(nat, nat)> {
    if b == [] then None
    else if b[0] < 128 then Some((b[0], 1))
    else
      var k: nat := b[0] - 128;
      if k == 0 || k >= |b| || b[1] == 0 then None
      else
        var n := BigEndian(b[1..k + 1]);
        if n < 128 then None else Some((n, k + 1))
  }

  function ReadTlv(b: bytes): (r: Option<Tlv>)
    ensures r.Some? ==> |r.value.rest| < |b|
  {
    if b == [] then None
    else
      var (n, used) :- ReadLength(b[1..]);
      if 1 + used + n > |b| then None
      else Some(Tlv(b[0], b[1 + used..1 + used + n], b[1 + used + n..]))
  }

  lemma TwoOctets(n: nat)
    ensures n / 256 % 256 * 256 + n % 256 == n % LENGTH_LIMIT
    ensures 256 <= n < LENGTH_LIMIT ==> n % LENGTH_LIMIT == n && n / 256 % 256 != 0
  {
    DivModOf(n, n / 256 / 256, n / 256 % 256 * 256 + n % 256, LENGTH_LIMIT);
  }

  lemma ReadLongLength(b: bytes, hi: byte, lo: byte)
    requires |b| >= 3 && b[0] == 0x82 && b[1] == hi && b[2] == lo
    ensures ReadLength(b) == if hi == 0 then None else Some((hi * 256 + lo, 3))
  {
    assert b[1..3] == [hi, lo];
    BigEndianTwo(hi, lo);
  }

  lemma ReadLengthBack(n: nat, rest: bytes)
    ensures ReadLength(Length(n) + rest)
         == if n < LENGTH_LIMIT then Some((n, |Length(n)|))
            else if n / 256 % 256 == 0 then None
            else Some((n % LENGTH_LIMIT, 3))
  {
    var b := Length(n) + rest;
    assert b[0] == Length(n)[0];
    if n < 128 {
    } else if n < 256 {
      assert b[1..2] == [n];
      BigEndianTwo(n, 0);
    } else {
      TwoOctets(n);
      ReadLongLength(b, n / 256 % 256, n % 256);
    }
  }

  /** What was wrapped reads back, with whatever follows it left over, exactly when its length fits
      the encoder's two length octets. */
  lemma ReadsBackExactly(tag: byte, data: bytes, rest: bytes)
    ensures ReadTlv(Wrap(tag, data) + rest) == Some(Tlv(tag, data, rest)) <==> |data| < LENGTH_LIMIT
    ensures |data| >= LENGTH_LIMIT && ReadTlv(Wrap(tag, data) + rest).Some? ==>
              |ReadTlv(Wrap(tag, data) + rest).value.rest| > |rest|
  {
    var b := Wrap(tag, data) + rest;
    var n := |data|;
    assert b[1..] == Length(n) + (data + rest);
    ReadLengthBack(n, data + rest);
    if n < LENGTH_LIMIT {
      var used := |Length(n)|;
      assert b[1 + used..1 + used + n] == data && b[1 + used + n..] == rest;
    }
  }

  // ---- Tags and object identifiers ----

  datatype TagClass = Universal | Application | ContextSpecific | Private

  datatype Tag = Tag(cls: TagClass, constructed: bool, number: nat)

  /** An identifier octet for a tag number below 31 (section 8.1.2 of ITU-T X.690). */
  function ReadTag(b: byte): Option<Tag> {
    var cls := if b < 64 then Universal else if b < 128 then Application else if b < 192 then ContextSpecific else Private;
    if b % 32 == 31 then None else Some(Tag(cls, b / 32 % 2 == 1, b % 32))
  }

  // Universal tags, as ITU-T X.680 assigns them.
  const INTEGER_TAG := Tag(Universal, false, 2)
  const BIT_STRING_TAG := Tag(Universal, false, 3)
  const OCTET_STRING_TAG := Tag(Universal, false, 4)
  const OBJECT_ID_TAG := Tag(Universal, false, 6)
  const UTF8_STRING_TAG := Tag(Universal, false, 12)
  const SEQUENCE_TAG := Tag(Universal, true, 16)
  const SET_TAG := Tag(Universal, true, 17)

  /** The content of an element with a given tag that fills `b` completely. */
  function Unwrap(tag: Tag, b: bytes): Option<bytes> {
    var t :- ReadTlv(b);
    if ReadTag(t.tag) == Some(tag) && t.rest == [] then Some(t.content) else None
  }

  lemma UnwrapsExactly(octet: byte, tag: Tag, data: bytes)
    requires ReadTag(octet) == Some(tag)
    ensures Unwrap(tag, Wrap(octet, data)) == if |data| < LENGTH_LIMIT then Some(data) else None
  {
    ReadsBackExactly(octet, data, []);
    assert Wrap(octet, data) + [] == Wrap(octet, data);
  }

  /** The components of an object identifier from octet `i` on, each in base 128 with the high bit of all
      octets but its last set, and in the shortest form (section 8.19.2 of ITU-T X.690); `begun` is the
      value of the octets already read of the first one, times 128. */
  function Components(b: bytes, i: nat, begun: nat): Option<seq<nat>>
    requires i <= |b|
    decreases |b| - i
  {
    if i == |b| then if begun == 0 then Some([]) else None
    else if b[i] == 128 && begun == 0 then None
    else if b[i] >= 128 then Components(b, i + 1, (begun + (b[i] - 128)) * 128)
    else
      var rest :- Components(b, i + 1, 0);
      Some([begun + b[i]] + rest)
  }

  /** The arcs of an object identifier; the first component holds two of them (section 8.19.4 of ITU-T
      X.690). */
  function Arcs(b: bytes): Option<seq<nat>> {
    var components :- Components(b, 0, 0);
    if components == [] then None
    else
      var first := components[0];
      var root := if first < 40 then 0 else if first < 80 then 1 else 2;
      Some([root, first - 40 * root] + components[1..])
  }

  lemma {:induction false} ReadsSmallComponents(b: bytes, i: nat)
    requires i <= |b| && forall k :: i <= k < |b| ==> b[k] < 128
    ensures Components(b, i, 0) == Some(b[i..])
    decreases |b| - i
  {
    if i == |b| {
    } else {
      ReadsSmallComponents(b, i + 1);
      assert b[i..] == [b[i]] + b[i + 1..];
    }
  }

  /** The content of the element that follows an object identifier and ends `b`. */
  function AfterOid(arcs: seq<nat>, tag: Tag, b: bytes): Option<bytes> {
    var t :- ReadTlv(b);
    if ReadTag(t.tag) == Some(OBJECT_ID_TAG) && Arcs(t.content) == Some(arcs) then Unwrap(tag, t.rest) else None
  }

  lemma AfterOidReads(oid: bytes, arcs: seq<nat>, octet: byte, tag: Tag, data: bytes)
    requires Arcs(oid) == Some(arcs) && ReadTag(octet) == Some(tag)
    requires |oid| < LENGTH_LIMIT && |data| < LENGTH_LIMIT
    ensures AfterOid(arcs, tag, Wrap(OBJECT_ID, oid) + Wrap(octet, data)) == Some(data)
  {
    ReadsBackExactly(OBJECT_ID, oid, Wrap(octet, data));
    UnwrapsExactly(octet, tag, data);
  }

  /** The object identifiers that fill `b`. */
  function ReadOids(b: bytes): Option<seq<seq<nat>>>
    decreases |b|
  {
    if b == [] then Some([])
    else
      var t :- ReadTlv(b);
      if ReadTag(t.tag) != Some(OBJECT_ID_TAG) then None
      else
        var arcs :- Arcs(t.content);
        var rest :- ReadOids(t.rest);
        Some([arcs] + rest)
  }

  lemma ReadsOid(oid: bytes, arcs: seq<nat>, rest: bytes, more: seq<seq<nat>>)
    requires Arcs(oid) == Some(arcs) && |oid| < LENGTH_LIMIT && ReadOids(rest) == Some(more)
    ensures ReadOids(Wrap(OBJECT_ID, oid) + rest) == Some([arcs] + more)
  {
    ReadsBackExactly(OBJECT_ID, oid, rest);
  }

  datatype Named = Named(oids: seq<seq<nat>>, rest: bytes)

  /** An algorithm identifier of nothing but object identifiers, and what follows it (section 4.1.1.2
      of RFC 5280). */
  function ReadAlgorithm(b: bytes): Option<Named> {
    var t :- ReadTlv(b);
    if ReadTag(t.tag) != Some(SEQUENCE_TAG) then None
    else
      var oids :- ReadOids(t.content);
      Some(Named(oids, t.rest))
  }

  lemma WrapSize(tag: byte, data: bytes)
    ensures |data| >= 256 ==> |Wrap(tag, data)| == |data| + 4
    ensures |data| < |Wrap(tag, data)| <= |data| + 4
  {
  }
}

/** Certificate signing requests: building one for a list of domains, and reading it back. */
module SigningRequests {
  import opened Bytes
  import opened Der
  import opened Sequences
  import opened Wrappers

  const VERSION: bytes := [0x02, 0x01, 0x00]
  const COMMON_NAME: bytes := [0x06, 0x03, 0x55, 0x04, 0x03]
  const ALTERNATIVE_NAMES: bytes := [0x06, 0x03, 0x55, 0x1d, 0x11]
  const EXTENSION_REQUEST: bytes := [0x06, 0x09, 0x2a, 0x86, 0x48, 0x86, 0xf7, 0x0d, 0x01, 0x09, 0x0e]
  const EC_P256: bytes := [0x30, 0x13, 0x06, 0x07, 0x2a, 0x86, 0x48, 0xce, 0x3d, 0x02, 0x01, 0x06, 0x08, 0x2a, 0x86,
                           0x48, 0xce, 0x3d, 0x03, 0x01, 0x07]
  const ECDSA_SHA256: bytes := [0x30, 0x0a, 0x06, 0x08, 0x2a, 0x86, 0x48, 0xce, 0x3d, 0x04, 0x03, 0x02]

  // The identifiers a reader knows keys on the curve P-256 and ECDSA with SHA-256 by (sections 2.1.1 and
  // 2.1.1.1 of RFC 5480 and section 3.2 of RFC 5758).
  const EC_KEY: seq<nat> := [1, 2, 840, 10045, 2, 1]
  const P256: seq<nat> := [1, 2, 840, 10045, 3, 1, 7]
  const ECDSA_WITH_SHA256: seq<nat> := [1, 2, 840, 10045, 4, 3, 2]

  // ---- The subject alternative names ----

  function Names(domains: seq<bytes>): bytes {
    if domains == [] then [] else Wrap(DNS_NAME, domains[0]) + Names(domains[1..])
  }

  /** The nested elements of the attribute, innermost first; `names` is the list of names. */
  function Extension(names: bytes): bytes {
    ALTERNATIVE_NAMES + Wrap(OCTET_STRING, Wrap(SEQUENCE, names))
  }

  function ExtensionSet(names: bytes): bytes {
    Wrap(SET, Wrap(SEQUENCE, Wrap(SEQUENCE, Extension(names))))
  }

  function Attribute(names: bytes): bytes {
    Wrap(SEQUENCE, EXTENSION_REQUEST + ExtensionSet(names))
  }

  function SanAttribute(domains: seq<bytes>): bytes {
    Wrap(ATTRIBUTES, Attribute(Names(domains)))
  }

  lemma {:induction false} NamesAppend(domains: seq<bytes>, d: bytes)
    ensures Names(domains + [d]) == Names(domains) + Wrap(DNS_NAME, d)
  {
    if domains == [] {
      assert [d][1..] == [] && domains + [d] == [d];
      assert Wrap(DNS_NAME, d) + [] == Wrap(DNS_NAME, d) == [] + Wrap(DNS_NAME, d);
    } else {
      NamesAppend(domains[1..], d);
      assert (domains + [d])[1..] == domains[1..] + [d];
      Regroup(Wrap(DNS_NAME, domains[0]), Names(domains[1..]), Wrap(DNS_NAME, d));
    }
  }

  method BuildSanAttribute(domains: seq<bytes>) returns (attrs: bytes)
    ensures attrs == SanAttribute(domains)
  {
    var entries: bytes := [];
    for i := 0 to |domains|
      invariant entries == Names(domains[..i])
    {
      var entry := EncodeLength([DNS_NAME], |domains[i]|);
      entry := entry + domains[i];
      NamesAppend(domains[..i], domains[i]);
      assert domains[..i + 1] == domains[..i] + [domains[i]];
      entries := entries + entry;
    }
    assert domains[..|domains|] == domains;
    var names := WrapWith(SEQUENCE, entries);
    var octets := WrapWith(OCTET_STRING, names);
    var ext := WrapWith(SEQUENCE, ALTERNATIVE_NAMES + octets);
    var exts := WrapWith(SEQUENCE, ext);
    var extSet := WrapWith(SET, exts);
    var attr := WrapWith(SEQUENCE, EXTENSION_REQUEST + extSet);
    attrs := EncodeLength([ATTRIBUTES], |attr|);
    attrs := attrs + attr;
  }

  /** Context-tagged DNS names, one after the other (section 4.2.1.6 of RFC 5280). */
  function ReadNames(b: bytes): Option<seq<bytes>>
    decreases |b|
  {
    if b == [] then Some([])
    else
      var t :- ReadTlv(b);
      if ReadTag(t.tag) != Some(Tag(ContextSpecific, false, 2)) then None
      else
        var rest :- ReadNames(t.rest);
        Some([t.content] + rest)
  }

  function ReadExtension(b: bytes): Option<seq<bytes>> {
    var octets :- AfterOid([2, 5, 29, 17], OCTET_STRING_TAG, b);
    var names :- Unwrap(SEQUENCE_TAG, octets);
    ReadNames(names)
  }

  function ReadExtensions(b: bytes): Option<seq<bytes>> {
    var exts :- Unwrap(SEQUENCE_TAG, b);
    var ext :- Unwrap(SEQUENCE_TAG, exts);
    ReadExtension(ext)
  }

  /** The values of the one attribute in `b`, which must be of the given type (section 4.1 of RFC 2986). */
  function AttributeValues(arcs: seq<nat>, b: bytes): Option<bytes> {
    var attribute :- Unwrap(Tag(ContextSpecific, true, 0), b);
    var c :- Unwrap(SEQUENCE_TAG, attribute);
    AfterOid(arcs, SET_TAG, c)
  }

  /** The names in the extension request, attribute 1.2.840.113549.1.9.14 (section 5.4.2 of RFC 2985). */
  function ReadSan(b: bytes): Option<seq<bytes>> {
    var extSet :- AttributeValues([1, 2, 840, 113549, 1, 9, 14], b);
    ReadExtensions(extSet)
  }

  // ---- What the octets of the request say ----

  /** The tags the writer uses. */
  lemma TagsRead()
    ensures ReadTag(SEQUENCE) == Some(SEQUENCE_TAG) && ReadTag(SET) == Some(SET_TAG)
    ensures ReadTag(BIT_STRING) == Some(BIT_STRING_TAG) && ReadTag(OCTET_STRING) == Some(OCTET_STRING_TAG)
    ensures ReadTag(OBJECT_ID) == Some(OBJECT_ID_TAG) && ReadTag(UTF8_STRING) == Some(UTF8_STRING_TAG)
    ensures ReadTag(DNS_NAME) == Some(Tag(ContextSpecific, false, 2))
    ensures ReadTag(ATTRIBUTES) == Some(Tag(ContextSpecific, true, 0))
    ensures ReadTag(0x02) == Some(INTEGER_TAG)
  {
  }

  /** The identifiers 2.5.29.17 and 2.5.4.3. */
  lemma ReadsShortId(id: bytes)
    requires |id| == 3 && id[0] == 0x55 && id[1] < 128 && id[2] < 128
    ensures Arcs(id) == Some([2, 5, id[1], id[2]])
  {
    ReadsSmallComponents(id, 0);
    assert id[0..] == [0x55, id[1], id[2]];
    assert [2, 5] + id[0..][1..] == [2, 5, id[1], id[2]];
  }

  /** Identifiers under 1.2.840. */
  lemma ReadsUnder840(id: bytes, more: seq<nat>)
    requires |id| >= 3 && id[0] == 0x2a && id[1] == 0x86 && id[2] == 0x48 && Components(id, 3, 0) == Some(more)
    ensures Arcs(id) == Some([1, 2, 840] + more)
  {
    assert Components(id, 2, 6 * 128) == Some([840] + more);
    assert Components(id, 1, 0) == Some([840] + more);
    assert Components(id, 0, 0) == Some([42] + ([840] + more));
    assert [1, 2] + ([42] + ([840] + more))[1..] == [1, 2, 840] + more;
  }

  /** Identifiers under 1.2.840.10045. */
  lemma ReadsUnder10045(id: bytes, more: seq<nat>)
    requires |id| >= 5 && id[0] == 0x2a && id[1] == 0x86 && id[2] == 0x48 && id[3] == 0xce && id[4] == 0x3d
    requires (forall k :: 5 <= k < |id| ==> id[k] < 128) && more == id[5..]
    ensures Arcs(id) == Some([1, 2, 840, 10045] + more)
  {
    ReadsSmallComponents(id, 5);
    assert Components(id, 4, 78 * 128) == Some([10045] + more);
    assert Components(id, 3, 0) == Some([10045] + more);
    ReadsUnder840(id, [10045] + more);
    Regroup([1, 2, 840], [10045], more);
    assert [1, 2, 840] + [10045] == [1, 2, 840, 10045];
  }

  /** The identifier 1.2.840.113549.1.9.14. */
  lemma ReadsRequestId(id: bytes)
    requires id == [0x2a, 0x86, 0x48, 0x86, 0xf7, 0x0d, 0x01, 0x09, 0x0e]
    ensures Arcs(id) == Some([1, 2, 840, 113549, 1, 9, 14])
  {
    ReadsSmallComponents(id, 6);
    var tail: seq<nat> := [1, 9, 14];
    assert id[6..] == tail;
    assert Components(id, 5, (6 * 128 + 0x77) * 128) == Some([113549] + tail);
    assert Components(id, 4, 6 * 128) == Some([113549] + tail);
    assert Components(id, 3, 0) == Some([113549] + tail);
    ReadsUnder840(id, [113549] + tail);
    assert [1, 2, 840] + ([113549] + tail) == [1, 2, 840, 113549, 1, 9, 14];
  }

  /** The identifiers 1.2.840.10045.2.1, .3.1.7 and .4.3.2. */
  lemma ReadsCurveIds(kind: bytes, curve: bytes, algorithm: bytes)
    requires kind == [0x2a, 0x86, 0x48, 0xce, 0x3d, 0x02, 0x01]
    requires curve == [0x2a, 0x86, 0x48, 0xce, 0x3d, 0x03, 0x01, 0x07]
    requires algorithm == [0x2a, 0x86, 0x48, 0xce, 0x3d, 0x04, 0x03, 0x02]
    ensures Arcs(kind) == Some(EC_KEY)
    ensures Arcs(curve) == Some(P256)
    ensures Arcs(algorithm) == Some(ECDSA_WITH_SHA256)
  {
    ReadsUnder10045(kind, [2, 1]);
    ReadsUnder10045(curve, [3, 1, 7]);
    ReadsUnder10045(algorithm, [4, 3, 2]);
    assert [1, 2, 840, 10045] + [2, 1] == EC_KEY;
    assert [1, 2, 840, 10045] + [3, 1, 7] == P256;
    assert [1, 2, 840, 10045] + [4, 3, 2] == ECDSA_WITH_SHA256;
  }

  /** An elliptic curve key on the curve P-256. */
  lemma ReadsKeyAlgorithm(rest: bytes)
    ensures ReadAlgorithm(EC_P256 + rest) == Some(Named([EC_KEY, P256], rest))
  {
    var kind: bytes := [0x2a, 0x86, 0x48, 0xce, 0x3d, 0x02, 0x01];
    var curve: bytes := [0x2a, 0x86, 0x48, 0xce, 0x3d, 0x03, 0x01, 0x07];
    ReadsCurveIds(kind, curve, [0x2a, 0x86, 0x48, 0xce, 0x3d, 0x04, 0x03, 0x02]);
    var oids := Wrap(OBJECT_ID, kind) + Wrap(OBJECT_ID, curve);
    ReadsTwoOids(kind, EC_KEY, curve, P256);
    KeyAlgorithmWraps(kind, curve);
    AlgorithmReads(oids, [EC_KEY, P256], rest);
  }

  lemma KeyAlgorithmWraps(kind: bytes, curve: bytes)
    requires kind == [0x2a, 0x86, 0x48, 0xce, 0x3d, 0x02, 0x01] && curve == [0x2a, 0x86, 0x48, 0xce, 0x3d, 0x03, 0x01, 0x07]
    ensures EC_P256 == Wrap(SEQUENCE, Wrap(OBJECT_ID, kind) + Wrap(OBJECT_ID, curve))
  {
    assert Wrap(OBJECT_ID, kind) == [0x06, 0x07] + kind;
    assert Wrap(OBJECT_ID, curve) == [0x06, 0x08] + curve;
    assert EC_P256 == [0x30, 0x13] + (([0x06, 0x07] + kind) + ([0x06, 0x08] + curve));
  }

  lemma ReadsTwoOids(a: bytes, x: seq<nat>, b: bytes, y: seq<nat>)
    requires Arcs(a) == Some(x) && Arcs(b) == Some(y) && |a| < LENGTH_LIMIT && |b| < LENGTH_LIMIT
    ensures ReadOids(Wrap(OBJECT_ID, a) + Wrap(OBJECT_ID, b)) == Some([x, y])
  {
    ReadsOneOid(b, y);
    ReadsOid(a, x, Wrap(OBJECT_ID, b), [y]);
    assert [x] + [y] == [x, y];
  }

  lemma ReadsOneOid(a: bytes, x: seq<nat>)
    requires Arcs(a) == Some(x) && |a| < LENGTH_LIMIT
    ensures ReadOids(Wrap(OBJECT_ID, a)) == Some([x])
  {
    ReadsOid(a, x, [], []);
    assert Wrap(OBJECT_ID, a) + [] == Wrap(OBJECT_ID, a) && [x] + [] == [x];
  }

  lemma AlgorithmReads(content: bytes, oids: seq<seq<nat>>, rest: bytes)
    requires ReadOids(content) == Some(oids) && |content| < LENGTH_LIMIT
    ensures ReadAlgorithm(Wrap(SEQUENCE, content) + rest) == Some(Named(oids, rest))
  {
    TagsRead();
    ReadsBackExactly(SEQUENCE, content, rest);
  }

  /** ECDSA with SHA-256, without parameters (section 3.2 of RFC 5758). */
  lemma ReadsSignatureAlgorithm(rest: bytes)
    ensures ReadAlgorithm(ECDSA_SHA256 + rest) == Some(Named([ECDSA_WITH_SHA256], rest))
  {
    var id: bytes := [0x2a, 0x86, 0x48, 0xce, 0x3d, 0x04, 0x03, 0x02];
    ReadsCurveIds([0x2a, 0x86, 0x48, 0xce, 0x3d, 0x02, 0x01], [0x2a, 0x86, 0x48, 0xce, 0x3d, 0x03, 0x01, 0x07], id);
    ReadsOneOid(id, ECDSA_WITH_SHA256);
    assert ECDSA_SHA256 == Wrap(SEQUENCE, Wrap(OBJECT_ID, id));
    AlgorithmReads(Wrap(OBJECT_ID, id), [ECDSA_WITH_SHA256], rest);
  }

  lemma {:induction false} ReadsNames(domains: seq<bytes>)
    requires |Names(domains)| < LENGTH_LIMIT
    ensures ReadNames(Names(domains)) == Some(domains)
  {
    if domains == [] {
    } else {
      var d, rest := domains[0], Names(domains[1..]);
      TagsRead();
      WrapSize(DNS_NAME, d);
      ReadsBackExactly(DNS_NAME, d, rest);
      ReadsNames(domains[1..]);
      assert domains == [d] + domains[1..];
    }
  }

  lemma ReadsExtension(domains: seq<bytes>)
    requires |Extension(Names(domains))| < LENGTH_LIMIT
    ensures ReadExtension(Extension(Names(domains))) == Some(domains)
  {
    var names := Names(domains);
    var inner := Wrap(SEQUENCE, names);
    WrapSize(SEQUENCE, names);
    WrapSize(OCTET_STRING, inner);
    assert ALTERNATIVE_NAMES == Wrap(OBJECT_ID, [0x55, 0x1d, 0x11]);
    TagsRead();
    ReadsShortId([0x55, 0x1d, 0x11]);
    AfterOidReads([0x55, 0x1d, 0x11], [2, 5, 29, 17], OCTET_STRING, OCTET_STRING_TAG, inner);
    UnwrapsExactly(SEQUENCE, SEQUENCE_TAG, names);
    ReadsNames(domains);
  }

  lemma ReadsExtensions(domains: seq<bytes>, exts: bytes)
    requires exts == Wrap(SEQUENCE, Wrap(SEQUENCE, Extension(Names(domains)))) && |exts| < LENGTH_LIMIT
    ensures ReadExtensions(exts) == Some(domains)
  {
    var ext := Extension(Names(domains));
    WrapSize(SEQUENCE, ext);
    WrapSize(SEQUENCE, Wrap(SEQUENCE, ext));
    TagsRead();
    UnwrapsExactly(SEQUENCE, SEQUENCE_TAG, Wrap(SEQUENCE, ext));
    UnwrapsExactly(SEQUENCE, SEQUENCE_TAG, ext);
    ReadsExtension(domains);
  }

  lemma ReadsAttributeValues(oid: bytes, arcs: seq<nat>, values: bytes)
    requires Arcs(oid) == Some(arcs)
    requires |Wrap(SEQUENCE, Wrap(OBJECT_ID, oid) + Wrap(SET, values))| < LENGTH_LIMIT
    ensures AttributeValues(arcs, Wrap(ATTRIBUTES, Wrap(SEQUENCE, Wrap(OBJECT_ID, oid) + Wrap(SET, values)))) == Some(values)
  {
    var content := Wrap(OBJECT_ID, oid) + Wrap(SET, values);
    WrapSize(OBJECT_ID, oid);
    WrapSize(SET, values);
    WrapSize(SEQUENCE, content);
    TagsRead();
    UnwrapsExactly(ATTRIBUTES, Tag(ContextSpecific, true, 0), Wrap(SEQUENCE, content));
    UnwrapsExactly(SEQUENCE, SEQUENCE_TAG, content);
    AfterOidReads(oid, arcs, SET, SET_TAG, values);
  }

  lemma RequestIdWraps(id: bytes, rest: bytes)
    requires id == [0x2a, 0x86, 0x48, 0x86, 0xf7, 0x0d, 0x01, 0x09, 0x0e]
    ensures EXTENSION_REQUEST + rest == Wrap(OBJECT_ID, id) + rest
  {
    assert EXTENSION_REQUEST == [OBJECT_ID] + [9] + id;
  }

  lemma ReadsSan(domains: seq<bytes>)
    requires |Attribute(Names(domains))| < LENGTH_LIMIT
    ensures ReadSan(SanAttribute(domains)) == Some(domains)
  {
    var id: bytes := [0x2a, 0x86, 0x48, 0x86, 0xf7, 0x0d, 0x01, 0x09, 0x0e];
    var exts := Wrap(SEQUENCE, Wrap(SEQUENCE, Extension(Names(domains))));
    RequestIdWraps(id, Wrap(SET, exts));
    ReadsRequestId(id);
    ReadsAttributeValues(id, [1, 2, 840, 113549, 1, 9, 14], exts);
    WrapSize(SET, exts);
    WrapSize(SEQUENCE, EXTENSION_REQUEST + Wrap(SET, exts));
    ReadsExtensions(domains, exts);
  }

  lemma AttributeSize(names: bytes)
    ensures |names| >= 256 ==> |Attribute(names)| == |names| + 40
    ensures |Attribute(names)| <= |names| + 40
  {
    var inner := Wrap(SEQUENCE, names);
    WrapSize(SEQUENCE, names);
    WrapSize(OCTET_STRING, inner);
    var ext := Extension(names);
    WrapSize(SEQUENCE, ext);
    WrapSize(SEQUENCE, Wrap(SEQUENCE, ext));
    WrapSize(SET, Wrap(SEQUENCE, Wrap(SEQUENCE, ext)));
    WrapSize(SEQUENCE, EXTENSION_REQUEST + ExtensionSet(names));
  }

  /** The attribute reads back as exactly the domains, in order, when the encoded names take fewer
      than 65496 octets, and never otherwise. */
  lemma SanReadsBackExactly(domains: seq<bytes>)
    ensures ReadSan(SanAttribute(domains)) == Some(domains) <==> |Names(domains)| < 65496
  {
    AttributeSize(Names(domains));
    if |Names(domains)| < 65496 {
      ReadsSan(domains);
    } else {
      TagsRead();
      UnwrapsExactly(ATTRIBUTES, Tag(ContextSpecific, true, 0), Attribute(Names(domains)));
    }
  }

  // ---- The whole request ----

  function Subject(cn: bytes): bytes {
    Wrap(SET, Wrap(SEQUENCE, COMMON_NAME + Wrap(UTF8_STRING, cn)))
  }

  method BuildCn(cn: bytes) returns (name: bytes)
    ensures name == Wrap(SEQUENCE, Subject(cn))
  {
    var value := EncodeLength([UTF8_STRING], |cn|);
    value := value + cn;
    var atv := WrapWith(SEQUENCE, COMMON_NAME + value);
    var rdn := WrapWith(SET, atv);
    name := WrapWith(SEQUENCE, rdn);
  }

  /** What is signed: version, subject, public key and attributes. */
  function Info(domains: seq<bytes>, key: bytes): bytes
    requires domains != []
  {
    VERSION + (Wrap(SEQUENCE, Subject(domains[0])) + (Wrap(SEQUENCE, EC_P256 + BitString(key)) + SanAttribute(domains)))
  }

  /** Everything inside the outermost element. */
  function Body(domains: seq<bytes>, key: bytes, signature: bytes): bytes
    requires domains != []
  {
    Wrap(SEQUENCE, Info(domains, key)) + (ECDSA_SHA256 + BitString(signature))
  }

  /** Build a request; the signature covers the encoded information and nothing else, and there is a
      request exactly when signing does not fail. */
  method BuildCsr(domains: seq<bytes>, key: bytes, sign: bytes -> Option<bytes>) returns (csr: Option<bytes>)
    requires domains != []
    ensures var signed := sign(Wrap(SEQUENCE, Info(domains, key)));
            && (csr.Some? <==> signed.Some?)
            && (csr.Some? ==> csr.value == Wrap(SEQUENCE, Body(domains, key, signed.value)))
  {
    var info := VERSION;
    var subject := BuildCn(domains[0]);
    var bits := WrapBitString(key);
    var spki := WrapWith(SEQUENCE, EC_P256 + bits);
    var attrs := BuildSanAttribute(domains);
    Regroup(subject, spki, attrs);
    Regroup(info, subject, spki + attrs);
    Regroup(info + subject, spki, attrs);
    info := info + subject + spki + attrs;
    var infoSeq := WrapWith(SEQUENCE, info);
    var signed := sign(infoSeq);
    if signed.None? {
      return None;
    }
    var sigBits := WrapBitString(signed.value);
    Regroup(infoSeq, ECDSA_SHA256, sigBits);
    var request := WrapWith(SEQUENCE, infoSeq + ECDSA_SHA256 + sigBits);
    return Some(request);
  }

  /** What a reader finds in a request; `signed` is the encoded information, octet for octet. */
  datatype Request = Request(commonName: bytes, key: bytes, domains: seq<bytes>, signed: bytes, signature: bytes)

  function ReadBits(b: bytes): Option<bytes> {
    var c :- Unwrap(BIT_STRING_TAG, b);
    if c != [] && c[0] == 0 then Some(c[1..]) else None
  }

  /** A common name, 2.5.4.3. */
  function ReadSubject(b: bytes): Option<bytes> {
    var rdn :- Unwrap(SET_TAG, b);
    var atv :- Unwrap(SEQUENCE_TAG, rdn);
    AfterOid([2, 5, 4, 3], UTF8_STRING_TAG, atv)
  }

  function ReadKey(b: bytes): Option<bytes> {
    var algorithm :- ReadAlgorithm(b);
    if algorithm.oids != [EC_KEY, P256] then None
    else ReadBits(algorithm.rest)
  }

  /** What follows the version number, which must be zero. */
  function ReadVersion(b: bytes): Option<bytes> {
    var t :- ReadTlv(b);
    if ReadTag(t.tag) == Some(INTEGER_TAG) && t.content == [0] then Some(t.rest) else None
  }

  function ReadInfo(b: bytes): Option<(bytes, bytes, seq<bytes>)> {
    var fields :- ReadVersion(b);
    var subject :- ReadTlv(fields);
    var spki :- ReadTlv(subject.rest);
    if ReadTag(subject.tag) != Some(SEQUENCE_TAG) || ReadTag(spki.tag) != Some(SEQUENCE_TAG) then None
    else
      var cn :- ReadSubject(subject.content);
      var key :- ReadKey(spki.content);
      var domains :- ReadSan(spki.rest);
      Some((cn, key, domains))
  }

  /** The signature under an algorithm identifier for ECDSA with SHA-256. */
  function ReadSignature(b: bytes): Option<bytes> {
    var algorithm :- ReadAlgorithm(b);
    if algorithm.oids != [ECDSA_WITH_SHA256] then None else ReadBits(algorithm.rest)
  }

  function ReadCsr(b: bytes): Option<Request> {
    var body :- Unwrap(SEQUENCE_TAG, b);
    var info :- ReadTlv(body);
    var signature :- ReadSignature(info.rest);
    if ReadTag(info.tag) != Some(SEQUENCE_TAG) then None
    else
      var (cn, key, domains) :- ReadInfo(info.content);
      Some(Request(cn, key, domains, body[..|body| - |info.rest|], signature))
  }

  lemma ReadsBits(data: bytes)
    requires |data| + 1 < LENGTH_LIMIT
    ensures ReadBits(BitString(data)) == Some(data)
  {
    TagsRead();
    UnwrapsExactly(BIT_STRING, BIT_STRING_TAG, [0] + data);
    assert ([0] + data)[1..] == data;
  }

  lemma ReadsSubject(cn: bytes)
    requires |Subject(cn)| < LENGTH_LIMIT
    ensures ReadSubject(Subject(cn)) == Some(cn)
  {
    var atv := COMMON_NAME + Wrap(UTF8_STRING, cn);
    assert COMMON_NAME == Wrap(OBJECT_ID, [0x55, 0x04, 0x03]);
    WrapSize(UTF8_STRING, cn);
    WrapSize(SEQUENCE, atv);
    WrapSize(SET, Wrap(SEQUENCE, atv));
    TagsRead();
    ReadsShortId([0x55, 0x04, 0x03]);
    UnwrapsExactly(SET, SET_TAG, Wrap(SEQUENCE, atv));
    UnwrapsExactly(SEQUENCE, SEQUENCE_TAG, atv);
    AfterOidReads([0x55, 0x04, 0x03], [2, 5, 4, 3], UTF8_STRING, UTF8_STRING_TAG, cn);
  }

  lemma ReadsVersion(rest: bytes)
    ensures ReadVersion(VERSION + rest) == Some(rest)
  {
    assert VERSION == Wrap(0x02, [0]);
    TagsRead();
    ReadsBackExactly(0x02, [0], rest);
  }

  lemma ReadsKey(key: bytes)
    requires |key| + 1 < LENGTH_LIMIT
    ensures ReadKey(EC_P256 + BitString(key)) == Some(key)
  {
    ReadsKeyAlgorithm(BitString(key));
    ReadsBits(key);
  }

  lemma ReadsSignature(signature: bytes)
    requires |signature| + 1 < LENGTH_LIMIT
    ensures ReadSignature(ECDSA_SHA256 + BitString(signature)) == Some(signature)
  {
    ReadsSignatureAlgorithm(BitString(signature));
    ReadsBits(signature);
  }

  lemma ReadsInfo(domains: seq<bytes>, key: bytes)
    requires domains != [] && |Info(domains, key)| < LENGTH_LIMIT
    ensures ReadInfo(Info(domains, key)) == Some((domains[0], key, domains))
  {
    var subject, spki, san := Subject(domains[0]), EC_P256 + BitString(key), SanAttribute(domains);
    WrapSize(SEQUENCE, subject);
    WrapSize(SEQUENCE, spki);
    WrapSize(BIT_STRING, [0] + key);
    WrapSize(ATTRIBUTES, Attribute(Names(domains)));
    TagsRead();
    ReadsVersion(Wrap(SEQUENCE, subject) + (Wrap(SEQUENCE, spki) + san));
    ReadsBackExactly(SEQUENCE, subject, Wrap(SEQUENCE, spki) + san);
    ReadsBackExactly(SEQUENCE, spki, san);
    ReadsSubject(domains[0]);
    ReadsKey(key);
    ReadsSan(domains);
  }

  lemma ReadsBody(domains: seq<bytes>, key: bytes, signature: bytes)
    requires domains != [] && |Body(domains, key, signature)| < LENGTH_LIMIT
    ensures ReadCsr(Wrap(SEQUENCE, Body(domains, key, signature)))
         == Some(Request(domains[0], key, domains, Wrap(SEQUENCE, Info(domains, key)), signature))
  {
    var info := Info(domains, key);
    var rest := ECDSA_SHA256 + BitString(signature);
    var body := Body(domains, key, signature);
    WrapSize(SEQUENCE, info);
    WrapSize(BIT_STRING, [0] + signature);
    TagsRead();
    UnwrapsExactly(SEQUENCE, SEQUENCE_TAG, body);
    ReadsBackExactly(SEQUENCE, info, rest);
    ReadsSignature(signature);
    ReadsInfo(domains, key);
    assert body[..|body| - |rest|] == Wrap(SEQUENCE, info);
  }

  /** A request reads back as the names, key and signature it was built from, with the signature
      covering exactly the octets that are read as signed, when its content fits the encoder's
      length octets, and never otherwise. */
  lemma CsrReadsBackExactly(domains: seq<bytes>, key: bytes, signature: bytes)
    requires domains != []
    ensures ReadCsr(Wrap(SEQUENCE, Body(domains, key, signature)))
         == Some(Request(domains[0], key, domains, Wrap(SEQUENCE, Info(domains, key)), signature))
       <==> |Body(domains, key, signature)| < LENGTH_LIMIT
  {
    if |Body(domains, key, signature)| < LENGTH_LIMIT {
      ReadsBody(domains, key, signature);
    } else {
      TagsRead();
      UnwrapsExactly(SEQUENCE, SEQUENCE_TAG, Body(domains, key, signature));
    }
  }
}
