/** The alphabet the base64 coders share. */
module Base64Alphabet {
  type sextet = x: int | 0 <= x < 64

  type Alphabet = s: string | |s| == 64 witness seq(64, _ => 'A')

  const UPPER := "ABCDEFGHIJKLMNOP"
  const MIDDLE := "QRSTUVWXYZabcdef"
  const LOWER := "ghijklmnopqrstuv"
  const LAST := "wxyz0123456789+/"

  const STANDARD: Alphabet := UPPER + MIDDLE + LOWER + LAST

  /** The decode table: the digit's value, or -1. */
  function Value(c: char): (v: int)
    ensures -1 <= v < 64
  {
    if 'A' <= c <= 'Z' then (c - 'A') as int
    else if 'a' <= c <= 'z' then (c - 'a') as int + 26
    else if '0' <= c <= '9' then (c - '0') as int + 52
    else if c == '+' then 62
    else if c == '/' then 63
    else -1
  }

  predicate Skipped(c: char) {
    c == '\n' || c == '\r' || c == ' '
  }

  /** The table undoes the alphabet, whose digits are neither padding nor skipped. */
  ghost predicate Readable(abc: Alphabet) {
    forall v: sextet :: Value(abc[v]) == v
  }

  lemma UpperValues(v: nat)
    requires v < 16
    ensures Value(UPPER[v]) == v
  {
  }

  lemma MiddleValues(v: nat)
    requires v < 16
    ensures Value(MIDDLE[v]) == 16 + v
  {
  }

  lemma LowerValues(v: nat)
    requires v < 16
    ensures Value(LOWER[v]) == 32 + v
  {
  }

  lemma LastValues(v: nat)
    requires v < 16
    ensures Value(LAST[v]) == 48 + v
  {
  }

  lemma FourParts(a: string, b: string, c: string, d: string, v: nat)
    requires |a| == |b| == |c| == |d| == 16 && v < 64
    ensures (a + b + c + d)[v]
         == if v < 16 then a[v] else if v < 32 then b[v - 16] else if v < 48 then c[v - 32] else d[v - 48]
  {
  }

  /** Every digit of the standard alphabet reads back as its own value. */
  lemma StandardIsReadable()
    ensures Readable(STANDARD)
  {
    forall v: sextet ensures Value(STANDARD[v]) == v {
      FourParts(UPPER, MIDDLE, LOWER, LAST, v);
      if v < 16 {
        UpperValues(v);
      } else if v < 32 {
        MiddleValues(v - 16);
      } else if v < 48 {
        LowerValues(v - 32);
      } else {
        LastValues(v - 48);
      }
    }
  }
}

/** The hand-written base64 coders: a chunked encoder, a streaming encoder over an unmasked 32-bit
    buffer, and a streaming decoder that skips line breaks and spaces. */
module Base64 {
  import opened Arithmetic
  import opened Base64Alphabet
  import opened Bytes
  import opened Sequences
  import opened Wrappers

  // ---- The encoding, by groups of three bytes ----

  function First(b0: byte): sextet {
    b0 / 4
  }

  function Second(b0: byte, b1: byte): sextet {
    b0 % 4 * 16 + b1 / 16
  }

  function Third(b1: byte, b2: byte): sextet {
    b1 % 16 * 4 + b2 / 64
  }

  function Fourth(b2: byte): sextet {
    b2 % 64
  }

  /** One group of one to three bytes; missing bytes leave padding behind. */
  function Group(abc: Alphabet, d: seq<byte>): (text: string)
    requires 1 <= |d| <= 3
    ensures |text| == 4
  {
    var b1: byte := if |d| > 1 then d[1] else 0;
    var b2: byte := if |d| > 2 then d[2] else 0;
    [abc[First(d[0])], abc[Second(d[0], b1)],
     if |d| > 1 then abc[Third(b1, b2)] else '=',
     if |d| > 2 then abc[Fourth(b2)] else '=']
  }

  /** Base64 as section 4 of RFC 4648 defines it. */
  function Encode(abc: Alphabet, d: seq<byte>): string {
    if d == [] then ""
    else if |d| <= 3 then Group(abc, d)
    else Group(abc, d[..3]) + Encode(abc, d[3..])
  }

  /** One chunk of the chunked encoder. */
  method EncodeChunk(abc: Alphabet, chunk: seq<byte>) returns (text: string)
    requires 1 <= |chunk| <= 3
    ensures text == Group(abc, chunk)
    ensures Readable(abc) ==> Decode(text) == Some(chunk)
  {
    if Readable(abc) {
      DecodesEncoding(abc, chunk);
    }
    var b0 := chunk[0];
    var b1 := if |chunk| > 1 then chunk[1] else 0;
    var b2 := if |chunk| > 2 then chunk[2] else 0;
    text := [abc[b0 / 4], abc[b0 % 4 * 16 + b1 / 16],
             if |chunk| > 1 then abc[b1 % 16 * 4 + b2 / 64] else '=',
             if |chunk| > 2 then abc[b2 % 64] else '='];
  }

  /** The chunked encoder. */
  method EncodeChunks(abc: Alphabet, d: seq<byte>) returns (text: string)
    ensures text == Encode(abc, d)
  {
    text := "";
    var i := 0;
    while i < |d|
      invariant i <= |d|
      invariant text + Encode(abc, d[i..]) == Encode(abc, d)
    {
      var next := if i + 3 < |d| then i + 3 else |d|;
      var piece := EncodeChunk(abc, d[i..next]);
      EncodeStep(abc, d, i);
      text := text + piece;
      i := next;
    }
  }

  lemma EncodeStep(abc: Alphabet, d: seq<byte>, i: nat)
    requires i < |d|
    ensures var n := if i + 3 < |d| then i + 3 else |d|;
            Encode(abc, d[i..]) == Group(abc, d[i..n]) + Encode(abc, d[n..])
  {
    if i + 3 < |d| {
      assert d[i..][..3] == d[i..i + 3] && d[i..][3..] == d[i + 3..];
    } else {
      assert d[i..|d|] == d[i..] && d[|d|..] == [];
    }
  }

  // ---- The streaming encoder ----

  const U32 := 0x1_0000_0000

  /** `x` shifted right by `n` bits. */
  function Shr(x: nat, n: nat): nat {
    if n == 0 then x else Shr(x / 2, n - 1)
  }

  /** `x` shifted left by `n` bits. */
  function Shl(x: nat, n: nat): nat
    decreases n
  {
    if n == 0 then x else Shl(2 * x, n - 1)
  }

  /** The six-bit digits taken off the top of `bits` pending bits. */
  function Drained(abc: Alphabet, buffer: nat, bits: nat): string {
    if bits < 6 then "" else [abc[Shr(buffer, bits - 6) % 64]] + Drained(abc, buffer, bits - 6)
  }

  method Drain(abc: Alphabet, buffer: nat, pending: nat) returns (digits: string, bits: nat)
    ensures digits == Drained(abc, buffer, pending) && bits == pending % 6
  {
    digits, bits := "", pending;
    while bits >= 6
      invariant digits + Drained(abc, buffer, bits) == Drained(abc, buffer, pending)
      invariant bits % 6 == pending % 6
    {
      bits := bits - 6;
      digits := digits + [abc[Shr(buffer, bits) % 64]];
    }
  }

  function Shifted(buffer: nat, b: byte): nat {
    (buffer * 256 + b) % U32
  }

  lemma ShrByTwo(x: nat, n: nat)
    requires n >= 2
    ensures Shr(x, n) == Shr(x / 4, n - 2) && Shr(x / 4, 0) == x / 4
  {
    DivModOf(x, x / 4, x % 4, 4);
    DivModOf(x / 2, x / 4, x % 4 / 2, 2);
  }

  lemma QuarterTwice(x: nat)
    ensures x / 4 / 4 == x / 16 && x / 16 / 4 == x / 64
  {
    DivModOf(x / 4, x / 16, x % 16 / 4, 4);
    DivModOf(x / 16, x / 64, x % 64 / 16, 4);
  }

  lemma SmallShifts(x: nat)
    ensures Shr(x, 2) == x / 4 && Shr(x, 4) == x / 16 && Shr(x, 6) == x / 64
    ensures Shl(x, 2) == 4 * x && Shl(x, 4) == 16 * x
  {
    QuarterTwice(x);
    ShrByTwo(x, 2);
    ShrByTwo(x, 4);
    ShrByTwo(x / 4, 2);
    ShrByTwo(x, 6);
    ShrByTwo(x / 4, 4);
    ShrByTwo(x / 16, 2);
    assert Shl(x, 4) == Shl(4 * x, 2);
  }

  /** Wrapping at 32 bits and whatever was never masked off leave the low twelve bits alone. */
  lemma ShiftKeepsLowBits(buffer: nat, b: byte)
    ensures Shifted(buffer, b) % 4096 == buffer % 16 * 256 + b
  {
    var z := buffer * 256 + b;
    var q := buffer / 16 - 0x10_0000 * (z / U32);
    DivModOf(Shifted(buffer, b), q, buffer % 16 * 256 + b, 4096);
  }

  lemma LowBits(y: nat, r: nat, b: byte)
    requires r < 16 && y % 4096 == r * 256 + b
    ensures y % 1024 == r % 4 * 256 + b && y % 256 == b
  {
    var q := y / 4096;
    DivModOf(y, 4 * q + r / 4, r % 4 * 256 + b, 1024);
    DivModOf(y, 16 * q + r, b, 256);
  }

  lemma DrainEight(abc: Alphabet, y: nat, b: byte, n: nat)
    requires n == 8 && y % 256 == b
    ensures Drained(abc, y, n) == [abc[First(b)]] && y % 4 == b % 4
  {
    SmallShifts(y);
    assert Drained(abc, y, 2) == "";
    EightBits(y, b);
  }

  lemma EightBits(y: nat, b: byte)
    requires y % 256 == b
    ensures y / 4 % 64 == First(b) && y % 4 == b % 4
  {
    var q := y / 256;
    DivModOf(y, 64 * q + b / 4, b % 4, 4);
    DivModOf(64 * q + b / 4, q, b / 4, 64);
  }

  lemma DrainTen(abc: Alphabet, y: nat, b0: byte, b1: byte, n: nat)
    requires n == 10 && y % 1024 == b0 % 4 * 256 + b1
    ensures Drained(abc, y, n) == [abc[Second(b0, b1)]] && y % 16 == b1 % 16
  {
    SmallShifts(y);
    assert Drained(abc, y, 4) == "";
    TenBits(y, b0, b1);
  }

  lemma TenBits(y: nat, b0: byte, b1: byte)
    requires y % 1024 == b0 % 4 * 256 + b1
    ensures y / 16 % 64 == Second(b0, b1) && y % 16 == b1 % 16
  {
    var q, s := y / 1024, b0 % 4 * 16 + b1 / 16;
    DivModOf(y, 64 * q + s, b1 % 16, 16);
    DivModOf(64 * q + s, q, s, 64);
  }

  lemma DrainTwelve(abc: Alphabet, y: nat, b1: byte, b2: byte, n: nat)
    requires n == 12 && y % 4096 == b1 % 16 * 256 + b2
    ensures Drained(abc, y, n) == [abc[Third(b1, b2)], abc[Fourth(b2)]]
  {
    SmallShifts(y);
    TwelveBits(y, b1, b2);
    assert Drained(abc, y, 0) == "";
    assert Drained(abc, y, 6) == [abc[Fourth(b2)]];
  }

  lemma TwelveBits(y: nat, b1: byte, b2: byte)
    requires y % 4096 == b1 % 16 * 256 + b2
    ensures y / 64 % 64 == Third(b1, b2) && y % 64 == Fourth(b2)
  {
    var q, s := y / 4096, b1 % 16 * 4 + b2 / 64;
    DivModOf(y, 64 * q + s, b2 % 64, 64);
    DivModOf(64 * q + s, q, s, 64);
  }

  /** After whole groups encoded as `enc` and the unfinished group `part`: the buffer holds the bits of
      the unfinished group that are still to come, under whatever was never masked off. */
  ghost predicate Streaming(abc: Alphabet, enc: string, part: seq<byte>, text: string, buffer: nat, bits: nat) {
    && |part| < 3 && bits == 2 * |part|
    && match |part|
       case 0 => text == enc
       case 1 => buffer % 4 == part[0] % 4 && text == enc + [abc[First(part[0])]]
       case _ => buffer % 16 == part[1] % 16 && text == enc + [abc[First(part[0])], abc[Second(part[0], part[1])]]
  }

  /** Appending a last group, whole or partial, to whole groups appends its four characters. */
  lemma {:induction false} EncodeAppend(abc: Alphabet, d: seq<byte>, g: seq<byte>)
    requires |d| % 3 == 0 && 1 <= |g| <= 3
    ensures Encode(abc, d + g) == Encode(abc, d) + Group(abc, g)
  {
    if d == [] {
      assert d + g == g;
    } else {
      assert (d + g)[..3] == d[..3] && (d + g)[3..] == d[3..] + g;
      EncodeAppend(abc, d[3..], g);
      if |d| == 3 {
        assert d[3..] == [] && d[..3] == d;
      }
    }
  }

  lemma FirstByte(abc: Alphabet, enc: string, part: seq<byte>, text: string, buffer: nat, b: byte, y: nat, n: nat)
    requires y == Shifted(buffer, b) && n == 8
    requires |part| == 0 && Streaming(abc, enc, part, text, buffer, 0)
    ensures Streaming(abc, enc, NextPart(part, b), text + Drained(abc, y, n), y, 2)
  {
    ShiftKeepsLowBits(buffer, b);
    LowBits(y, buffer % 16, b);
    DrainEight(abc, y, b, n);
  }

  lemma SecondByte(abc: Alphabet, enc: string, part: seq<byte>, text: string, buffer: nat, b: byte, y: nat, n: nat)
    requires y == Shifted(buffer, b) && n == 10
    requires |part| == 1 && Streaming(abc, enc, part, text, buffer, 2)
    ensures Streaming(abc, enc, NextPart(part, b), text + Drained(abc, y, n), y, 4)
  {
    ShiftKeepsLowBits(buffer, b);
    LowBits(y, buffer % 16, b);
    FourInSixteen(buffer);
    DrainTen(abc, y, part[0], b, n);
  }

  lemma FourInSixteen(x: nat)
    ensures x % 16 % 4 == x % 4
  {
  }

  lemma ThirdByte(abc: Alphabet, enc: string, part: seq<byte>, text: string, buffer: nat, b: byte, y: nat, n: nat)
    requires y == Shifted(buffer, b) && n == 12
    requires |part| == 2 && Streaming(abc, enc, part, text, buffer, 4)
    ensures Streaming(abc, NextEnc(abc, enc, part, b), NextPart(part, b), text + Drained(abc, y, n), y, 0)
  {
    ShiftKeepsLowBits(buffer, b);
    DrainTwelve(abc, y, part[1], b, n);
  }

  /** The whole groups, their encoding, and the unfinished group after one more byte. */
  function NextDone(done: seq<byte>, part: seq<byte>, b: byte): seq<byte> {
    if |part| == 2 then done + [part[0], part[1], b] else done
  }

  function NextEnc(abc: Alphabet, enc: string, part: seq<byte>, b: byte): string {
    if |part| == 2 then enc + Group(abc, [part[0], part[1], b]) else enc
  }

  function NextPart(part: seq<byte>, b: byte): seq<byte> {
    if |part| == 0 then [b] else if |part| == 1 then [part[0], b] else []
  }

  lemma PartGrows(abc: Alphabet, done: seq<byte>, part: seq<byte>, b: byte)
    requires |part| < 3 && |done| % 3 == 0
    ensures Encode(abc, NextDone(done, part, b)) == NextEnc(abc, Encode(abc, done), part, b)
  {
    if |part| == 2 {
      EncodeAppend(abc, done, [part[0], part[1], b]);
    }
  }

  lemma GroupsGrow(done: seq<byte>, part: seq<byte>, b: byte)
    requires |part| < 3 && |done| % 3 == 0
    ensures NextDone(done, part, b) + NextPart(part, b) == done + part + [b]
    ensures |NextDone(done, part, b)| % 3 == 0
  {
    ThreeMore(|done|);
  }

  lemma ThreeMore(n: nat)
    ensures (n + 3) % 3 == n % 3
  {
  }

  lemma NextByte(abc: Alphabet, enc: string, part: seq<byte>, text: string, buffer: nat, bits: nat, b: byte, y: nat)
    requires Streaming(abc, enc, part, text, buffer, bits) && y == Shifted(buffer, b)
    ensures Streaming(abc, NextEnc(abc, enc, part, b), NextPart(part, b), text + Drained(abc, y, bits + 8), y, (bits + 8) % 6)
  {
    if |part| == 2 {
      ThirdByte(abc, enc, part, text, buffer, b, y, bits + 8);
    } else if |part| == 1 {
      SecondByte(abc, enc, part, text, buffer, b, y, bits + 8);
    } else {
      FirstByte(abc, enc, part, text, buffer, b, y, bits + 8);
    }
  }

  lemma FourMore(n: nat)
    ensures (n + 4) % 4 == n % 4
  {
  }

  lemma {:induction false} EncodeLength(abc: Alphabet, d: seq<byte>)
    ensures |Encode(abc, d)| % 4 == 0
  {
    if |d| <= 3 {
    } else {
      EncodeLength(abc, d[3..]);
      FourMore(|Encode(abc, d[3..])|);
      assert |Encode(abc, d)| == |Encode(abc, d[3..])| + 4;
    }
  }

  /** `text` is `full` but for some padding at the end. */
  ghost predicate Unpadded(text: string, full: string) {
    && text <= full && |full| - |text| < 4
    && forall k :: |text| <= k < |full| ==> full[k] == '='
  }

  lemma EndsInGroup(whole: string, group: string, n: nat)
    requires |group| == 4 && 1 <= n <= 4 && forall k :: n <= k < 4 ==> group[k] == '='
    ensures Unpadded(whole + group[..n], whole + group)
  {
    assert (whole + group)[..|whole| + n] == whole + group[..n];
  }

  lemma TakesOneMore(whole: string, group: string, n: nat)
    requires n < |group|
    ensures whole + group[..n] + [group[n]] == whole + group[..n + 1]
    ensures |group| >= 2 ==> group[..1] == [group[0]] && group[..2] == [group[0], group[1]]
  {
  }

  lemma StreamEnd(abc: Alphabet, enc: string, part: seq<byte>, text: string, buffer: nat, bits: nat)
    requires part != [] && Streaming(abc, enc, part, text, buffer, bits)
    ensures Unpadded(text + [abc[Shl(buffer, 6 - bits) % 64]], enc + Group(abc, part))
  {
    SmallShifts(buffer);
    LastDigit(buffer);
    var group := Group(abc, part);
    EndsInGroup(enc, group, |part| + 1);
    TakesOneMore(enc, group, |part|);
  }

  lemma LastDigit(buffer: nat)
    ensures buffer * 16 % 64 == buffer % 4 * 16 && buffer * 4 % 64 == buffer % 16 * 4
  {
    DivModOf(buffer * 16, buffer / 4, buffer % 4 * 16, 64);
    DivModOf(buffer * 4, buffer / 16, buffer % 16 * 4, 64);
  }

  /** The first `i` bytes are in: `done` in whole groups and `part` after them. */
  ghost predicate Encoding(abc: Alphabet, d: seq<byte>, i: nat, done: seq<byte>, part: seq<byte>, text: string, buffer: nat, bits: nat)
    requires i <= |d|
  {
    d[..i] == done + part && |done| % 3 == 0 && Streaming(abc, Encode(abc, done), part, text, buffer, bits)
  }

  lemma Advance(abc: Alphabet, d: seq<byte>, i: nat, done: seq<byte>, part: seq<byte>, text: string, buffer: nat, bits: nat, y: nat)
    requires i < |d| && Encoding(abc, d, i, done, part, text, buffer, bits) && y == Shifted(buffer, d[i])
    ensures Encoding(abc, d, i + 1, NextDone(done, part, d[i]), NextPart(part, d[i]),
                     text + Drained(abc, y, bits + 8), y, (bits + 8) % 6)
  {
    var enc := Encode(abc, done);
    NextByte(abc, enc, part, text, buffer, bits, d[i], y);
    PartGrows(abc, done, part, d[i]);
    GroupsGrow(done, part, d[i]);
    assert d[..i + 1] == d[..i] + [d[i]];
  }

  /** The streaming encoder. */
  method EncodeStream(abc: Alphabet, d: seq<byte>) returns (text: string)
    ensures text == Encode(abc, d)
  {
    text := "";
    var buffer: nat, bits: nat := 0, 0;
    ghost var done, part: seq<byte> := [], [];
    for i := 0 to |d|
      invariant Encoding(abc, d, i, done, part, text, buffer, bits)
    {
      Advance(abc, d, i, done, part, text, buffer, bits, Shifted(buffer, d[i]));
      done, part := NextDone(done, part, d[i]), NextPart(part, d[i]);
      buffer := (buffer * 256 + d[i]) % U32;
      var digits;
      digits, bits := Drain(abc, buffer, bits + 8);
      text := text + digits;
    }
    assert d[..|d|] == d;
    text := Finish(abc, text, buffer, bits, done, part);
  }

  /** Write the bits that are left and the padding. */
  method Finish(abc: Alphabet, start: string, buffer: nat, bits: nat, ghost done: seq<byte>, ghost part: seq<byte>)
      returns (text: string)
    requires |done| % 3 == 0 && Streaming(abc, Encode(abc, done), part, start, buffer, bits)
    ensures text == Encode(abc, done + part)
  {
    text := start;
    EncodeLength(abc, done + part);
    if bits > 0 {
      StreamEnd(abc, Encode(abc, done), part, start, buffer, bits);
      EncodeAppend(abc, done, part);
      text := text + [abc[Shl(buffer, 6 - bits) % 64]];
    } else {
      assert done + part == done;
    }
    text := Pad(text, Encode(abc, done + part));
  }

  method Pad(start: string, ghost full: string) returns (text: string)
    requires Unpadded(start, full) && |full| % 4 == 0
    ensures text == full
  {
    text := start;
    while |text| % 4 != 0
      invariant Unpadded(text, full)
      decreases |full| - |text|
    {
      text := text + "=";
    }
  }

  // ---- The decoder ----

  /** The low `n` bits of `x`. */
  function Low(x: nat, n: nat): nat {
    if n == 0 then 0 else 2 * Low(x / 2, n - 1) + x % 2
  }

  /** The values of a text's digits up to the first padding; none if anything else is in the way. */
  function Digits(text: string): Option<seq<sextet>> {
    if text == "" || text[0] == '=' then Some([])
    else if Skipped(text[0]) then Digits(text[1..])
    else if Value(text[0]) < 0 then None
    else
      var rest := Digits(text[1..]);
      if rest.Some? then Some([Value(text[0])] + rest.value) else None
  }

  /** A digit shifted into the 32-bit buffer. */
  function Joined(buf: nat, v: sextet): nat {
    (buf * 64 + v) % U32
  }

  /** The bytes the digits from `i` on give out, when `bits` bits in `buf` are still to come. */
  function Unpack(vs: seq<sextet>, i: nat, buf: nat, bits: nat): seq<byte>
    requires i <= |vs|
    decreases |vs| - i
  {
    if i == |vs| then []
    else
      var x := Joined(buf, vs[i]);
      if bits + 6 < 8 then Unpack(vs, i + 1, x, bits + 6)
      else [Shr(x, bits - 2) % 256] + Unpack(vs, i + 1, Low(x, bits - 2), bits - 2)
  }

  function Decode(text: string): Option<seq<byte>> {
    var digits := Digits(text);
    if digits.Some? then Some(Unpack(digits.value, 0, 0, 0)) else None
  }

  /** What a single pass over the digits holds: the bytes given out, the buffer and its bit count. */
  datatype Held = Held(out: seq<byte>, buf: nat, bits: nat)

  function Push(h: Held, v: sextet): Held {
    var x := Joined(h.buf, v);
    if h.bits + 6 < 8 then Held(h.out, x, h.bits + 6)
    else Held(h.out + [Shr(x, h.bits - 2) % 256], Low(x, h.bits - 2), h.bits - 2)
  }

  function Pass(vs: seq<sextet>, n: nat): Held
    requires n <= |vs|
  {
    if n == 0 then Held([], 0, 0) else Push(Pass(vs, n - 1), vs[n - 1])
  }

  lemma {:induction false} PassUnpacks(vs: seq<sextet>, n: nat)
    requires n <= |vs|
    ensures var h := Pass(vs, n); Unpack(vs, 0, 0, 0) == h.out + Unpack(vs, n, h.buf, h.bits)
  {
    if n == 0 {
    } else {
      PassUnpacks(vs, n - 1);
      UnpackPushes(vs, n - 1, Pass(vs, n - 1));
    }
  }

  lemma UnpackPushes(vs: seq<sextet>, i: nat, h: Held)
    requires i < |vs|
    ensures var h' := Push(h, vs[i]);
            h.out + Unpack(vs, i, h.buf, h.bits) == h'.out + Unpack(vs, i + 1, h'.buf, h'.bits)
  {
    var h' := Push(h, vs[i]);
    if h.bits + 6 >= 8 {
      Regroup(h.out, [h'.out[|h.out|]], Unpack(vs, i + 1, h'.buf, h'.bits));
    }
  }

  lemma {:induction false} PassPrefix(vs: seq<sextet>, v: sextet, n: nat)
    requires n <= |vs|
    ensures Pass(vs + [v], n) == Pass(vs, n)
  {
    if n == 0 {
    } else {
      PassPrefix(vs, v, n - 1);
    }
  }

  /** Shift one digit in and, when a whole byte is there, give it out. */
  method Absorb(result: seq<byte>, buffer: nat, count: nat, val: sextet)
    returns (out: seq<byte>, buf: nat, bits: nat)
    ensures Held(out, buf, bits) == Push(Held(result, buffer, count), val)
  {
    out := result;
    buf := (buffer * 64 + val) % U32;
    bits := count + 6;
    if bits >= 8 {
      bits := bits - 8;
      out := out + [Shr(buf, bits) % 256];
      buf := Low(buf, bits);
    }
  }

  /** The digits of `text` are those `seen` so far and those of the characters from `i` on. */
  ghost predicate Reading(text: string, i: nat, seen: seq<sextet>)
    requires i <= |text|
  {
    var rest := Digits(text[i..]);
    Digits(text) == if rest.Some? then Some(seen + rest.value) else None
  }

  lemma ReadingStart(text: string)
    ensures Reading(text, 0, [])
  {
    assert text[0..] == text;
    if Digits(text).Some? {
      assert [] + Digits(text).value == Digits(text).value;
    }
  }

  lemma DigitsAt(text: string, i: nat, rest: Option<seq<sextet>>)
    requires i < |text| && rest == Digits(text[i + 1..])
    ensures Digits(text[i..])
         == if text[i] == '=' then Some([])
            else if Skipped(text[i]) then rest
            else if Value(text[i]) < 0 || rest.None? then None
            else Some([Value(text[i])] + rest.value)
  {
    assert text[i..][0] == text[i] && text[i..][1..] == text[i + 1..];
  }

  lemma ReadingNext(text: string, i: nat, seen: seq<sextet>)
    requires i < |text| && Reading(text, i, seen)
    ensures text[i] == '=' ==> Digits(text) == Some(seen)
    ensures Skipped(text[i]) ==> Reading(text, i + 1, seen)
    ensures text[i] != '=' && !Skipped(text[i]) ==>
              if Value(text[i]) < 0 then Digits(text) == None else Reading(text, i + 1, seen + [Value(text[i])])
  {
    var rest := Digits(text[i + 1..]);
    DigitsAt(text, i, rest);
    assert seen + [] == seen;
    if rest.Some? && Value(text[i]) >= 0 {
      Regroup(seen, [Value(text[i])], rest.value);
    }
  }

  /** The decoder's single pass. */
  method DecodeStream(text: string) returns (data: Option<seq<byte>>)
    ensures data == Decode(text)
  {
    var result: seq<byte> := [];
    var buf: nat, bits: nat := 0, 0;
    ghost var seen: seq<sextet> := [];
    ReadingStart(text);
    var i := 0;
    while i < |text| && text[i] != '='
      invariant i <= |text| && Reading(text, i, seen)
      invariant Held(result, buf, bits) == Pass(seen, |seen|)
    {
      ReadingNext(text, i, seen);
      if text[i] != '\n' && text[i] != '\r' && text[i] != ' ' {
        var val := Value(text[i]);
        if val < 0 {
          return None;
        }
        result, buf, bits := Absorb(result, buf, bits, val);
        PassPrefix(seen, val, |seen|);
        seen := seen + [val];
      }
      i := i + 1;
    }
    ReadingEnd(text, i, seen);
    return Some(result);
  }

  lemma ReadingEnd(text: string, i: nat, seen: seq<sextet>)
    requires i <= |text| && Reading(text, i, seen) && (i == |text| || text[i] == '=')
    ensures Decode(text) == Some(Pass(seen, |seen|).out)
  {
    assert Digits(text) == Some(seen) by {
      assert seen + [] == seen;
      if i < |text| {
        ReadingNext(text, i, seen);
      }
    }
    PassUnpacks(seen, |seen|);
    var h := Pass(seen, |seen|);
    assert h.out + [] == h.out;
  }

  lemma SmallLows(x: nat)
    ensures Low(x, 0) == 0 && Low(x, 2) == x % 4 && Low(x, 4) == x % 16
  {
    LowByTwo(x, 2);
    LowByTwo(x, 4);
    LowByTwo(x / 4, 2);
    QuarterTwice(x);
    DivModOf(x, x / 16, x / 4 % 4 * 4 + x % 4, 16);
  }

  lemma LowByTwo(x: nat, n: nat)
    requires n >= 2
    ensures Low(x, n) == 4 * Low(x / 4, n - 2) + x % 4
  {
    DivModOf(x / 2, x / 4, x % 4 / 2, 2);
    assert Low(x, n) == 2 * Low(x / 2, n - 1) + x % 2;
    assert Low(x / 2, n - 1) == 2 * Low(x / 4, n - 2) + x % 4 / 2;
  }

  lemma FirstOut(b0: byte, s: sextet, x: nat)
    requires s / 16 == b0 % 4 && x == First(b0) * 64 + s
    ensures Shr(x, 4) % 256 == b0 && Low(x, 4) == s % 16
  {
    DivModOf(x, b0, s % 16, 16);
    ByFour(x);
  }

  lemma ByFour(x: nat)
    ensures Shr(x, 4) == x / 16 && Low(x, 4) == x % 16
  {
    SmallShifts(x);
    SmallLows(x);
  }

  lemma SecondOut(b1: byte, s: sextet, x: nat)
    requires s / 4 == b1 % 16 && x == b1 / 16 * 64 + s
    ensures Shr(x, 2) % 256 == b1 && Low(x, 2) == s % 4
  {
    FourTimes(b1, s, x);
    DivModOf(x, b1, s % 4, 4);
    ByTwo(x);
  }

  lemma ByTwo(x: nat)
    ensures Shr(x, 2) == x / 4 && Low(x, 2) == x % 4
  {
    SmallShifts(x);
    SmallLows(x);
  }

  lemma FourTimes(b1: byte, s: sextet, x: nat)
    requires s / 4 == b1 % 16 && x == b1 / 16 * 64 + s
    ensures x == b1 as int * 4 + s % 4
  {
  }

  lemma SecondParts(b0: byte, b1: byte)
    ensures Second(b0, b1) / 16 == b0 % 4 && Second(b0, b1) % 16 == b1 / 16
  {
  }

  lemma ThirdParts(b1: byte, b2: byte)
    ensures Third(b1, b2) / 4 == b1 % 16 && Third(b1, b2) % 4 == b2 / 64
  {
  }

  // ---- The decoder undoes the encoding ----

  /** The digits of one group, without padding. */
  function GroupDigits(d: seq<byte>): seq<sextet>
    requires 1 <= |d| <= 3
  {
    if |d| == 1 then [First(d[0]), Second(d[0], 0)]
    else if |d| == 2 then [First(d[0]), Second(d[0], d[1]), Third(d[1], 0)]
    else [First(d[0]), Second(d[0], d[1]), Third(d[1], d[2]), Fourth(d[2])]
  }

  function Sextets(d: seq<byte>): seq<sextet> {
    if d == [] then [] else if |d| <= 3 then GroupDigits(d) else GroupDigits(d[..3]) + Sextets(d[3..])
  }

  lemma UnpackMore(vs: seq<sextet>, i: nat, buf: nat, bits: nat, x: nat)
    requires i < |vs| && x == buf * 64 + vs[i] && x < U32 && bits < 2
    ensures Unpack(vs, i, buf, bits) == Unpack(vs, i + 1, x, bits + 6)
  {
  }

  lemma UnpackOut(vs: seq<sextet>, i: nat, buf: nat, bits: nat, x: nat, out: byte, low: nat)
    requires i < |vs| && x == buf * 64 + vs[i] && x < U32 && bits >= 2
    requires Shr(x, bits - 2) % 256 == out && Low(x, bits - 2) == low
    ensures Unpack(vs, i, buf, bits) == [out] + Unpack(vs, i + 1, low, bits - 2)
  {
    assert x % U32 == x;
  }

  lemma UnpackFirstTwo(vs: seq<sextet>, i: nat, b0: byte, low: nat)
    requires i + 2 <= |vs| && vs[i] == First(b0) && vs[i + 1] / 16 == b0 % 4 && low == vs[i + 1] % 16
    ensures Unpack(vs, i, 0, 0) == [b0] + Unpack(vs, i + 2, low, 4)
  {
    var v: int := vs[i];
    var x := v * 64 + vs[i + 1];
    UnpackMore(vs, i, 0, 0, v);
    FirstOut(b0, vs[i + 1], x);
    UnpackOut(vs, i + 1, v, 6, x, b0, low);
  }

  lemma UnpackThird(vs: seq<sextet>, i: nat, b1: byte, buf: nat, low: nat)
    requires i < |vs| && vs[i] / 4 == b1 % 16 && buf == b1 / 16 && low == vs[i] % 4
    ensures Unpack(vs, i, buf, 4) == [b1] + Unpack(vs, i + 1, low, 2)
  {
    var x := buf * 64 + vs[i];
    SecondOut(b1, vs[i], x);
    UnpackOut(vs, i, buf, 4, x, b1, low);
  }

  lemma UnpackFourth(vs: seq<sextet>, i: nat, b2: byte, buf: nat)
    requires i < |vs| && vs[i] == Fourth(b2) && buf == b2 / 64
    ensures Unpack(vs, i, buf, 2) == [b2] + Unpack(vs, i + 1, 0, 0)
  {
    UnpackOut(vs, i, buf, 2, b2, b2, 0);
  }

  lemma UnpackTwo(vs: seq<sextet>, i: nat, b0: byte, b1: byte)
    requires i + 2 <= |vs| && vs[i] == First(b0) && vs[i + 1] == Second(b0, b1)
    ensures Unpack(vs, i, 0, 0) == [b0] + Unpack(vs, i + 2, b1 / 16, 4)
  {
    SecondParts(b0, b1);
    UnpackFirstTwo(vs, i, b0, b1 / 16);
  }

  lemma UnpackThree(vs: seq<sextet>, i: nat, b0: byte, b1: byte, b2: byte)
    requires i + 3 <= |vs| && vs[i] == First(b0) && vs[i + 1] == Second(b0, b1) && vs[i + 2] == Third(b1, b2)
    ensures Unpack(vs, i, 0, 0) == [b0, b1] + Unpack(vs, i + 3, b2 / 64, 2)
  {
    UnpackTwo(vs, i, b0, b1);
    ThirdParts(b1, b2);
    UnpackThird(vs, i + 2, b1, b1 / 16, b2 / 64);
    Regroup([b0], [b1], Unpack(vs, i + 3, b2 / 64, 2));
  }

  lemma UnpackFour(vs: seq<sextet>, i: nat, b0: byte, b1: byte, b2: byte)
    requires i + 4 <= |vs| && vs[i] == First(b0) && vs[i + 1] == Second(b0, b1)
    requires vs[i + 2] == Third(b1, b2) && vs[i + 3] == Fourth(b2)
    ensures Unpack(vs, i, 0, 0) == [b0, b1, b2] + Unpack(vs, i + 4, 0, 0)
  {
    UnpackThree(vs, i, b0, b1, b2);
    UnpackFourth(vs, i + 3, b2, b2 / 64);
    Regroup([b0, b1], [b2], Unpack(vs, i + 4, 0, 0));
  }

  /** A group's digits give out its bytes; after a whole group nothing is left over. */
  lemma UnpackGroup(vs: seq<sextet>, i: nat, d: seq<byte>)
    requires 1 <= |d| <= 3 && i + |d| + 1 <= |vs| && vs[i..i + |d| + 1] == GroupDigits(d)
    ensures |d| == 3 ==> Unpack(vs, i, 0, 0) == d + Unpack(vs, i + 4, 0, 0)
    ensures |d| < 3 && |vs| == i + |d| + 1 ==> Unpack(vs, i, 0, 0) == d
  {
    var g := vs[i..i + |d| + 1];
    assert vs[i] == g[0] && vs[i + 1] == g[1];
    if |d| == 1 {
      UnpackTwo(vs, i, d[0], 0);
      assert d == [d[0]];
    } else if |d| == 2 {
      assert vs[i + 2] == g[2];
      UnpackThree(vs, i, d[0], d[1], 0);
      assert d == [d[0], d[1]];
    } else {
      assert d == [d[0], d[1], d[2]] && vs[i + 2] == g[2] && vs[i + 3] == g[3];
      UnpackFour(vs, i, d[0], d[1], d[2]);
    }
  }

  lemma UnpackOne(vs: seq<sextet>, i: nat, buf: nat, bits: nat, h: Held)
    requires i < |vs| && h == Push(Held([], buf, bits), vs[i])
    ensures Unpack(vs, i, buf, bits) == h.out + Unpack(vs, i + 1, h.buf, h.bits)
  {
    UnpackPushes(vs, i, Held([], buf, bits));
    assert [] + Unpack(vs, i, buf, bits) == Unpack(vs, i, buf, bits);
  }

  lemma {:induction false} UnpackSuffix(vs: seq<sextet>, w: seq<sextet>, n: nat, i: nat, buf: nat, bits: nat)
    requires n + i <= |vs| && w == vs[n..]
    ensures Unpack(vs, n + i, buf, bits) == Unpack(w, i, buf, bits)
    decreases |vs| - i
  {
    if n + i == |vs| {
    } else {
      var h := Push(Held([], buf, bits), vs[n + i]);
      UnpackOne(vs, n + i, buf, bits, h);
      UnpackOne(w, i, buf, bits, h);
      UnpackSuffix(vs, w, n, i + 1, h.buf, h.bits);
    }
  }

  lemma {:induction false} UnpackSextets(d: seq<byte>)
    ensures Unpack(Sextets(d), 0, 0, 0) == d
  {
    var vs := Sextets(d);
    if 1 <= |d| <= 3 {
      assert vs[0..|d| + 1] == GroupDigits(d);
      UnpackGroup(vs, 0, d);
    } else if |d| > 3 {
      assert vs[0..4] == GroupDigits(d[..3]) && vs[4..] == Sextets(d[3..]);
      UnpackGroup(vs, 0, d[..3]);
      UnpackSuffix(vs, vs[4..], 4, 0, 0, 0);
      UnpackSextets(d[3..]);
      assert d == d[..3] + d[3..];
    }
  }

  lemma DigitsOfDigit(abc: Alphabet, v: sextet, rest: string)
    requires Readable(abc)
    ensures var all, tail := Digits([abc[v]] + rest), Digits(rest);
            if tail.Some? then all == Some([v] + tail.value) else all == None
  {
    var text := [abc[v]] + rest;
    assert text[0] == abc[v] && text[1..] == rest && Value(abc[v]) == v;
  }

  lemma {:induction false} DigitsOfAll(abc: Alphabet, vs: seq<sextet>, text: string, rest: string, tail: seq<sextet>)
    requires Readable(abc) && Digits(rest) == Some(tail) && |text| == |vs|
    requires forall k :: 0 <= k < |vs| ==> text[k] == abc[vs[k]]
    ensures Digits(text + rest) == Some(vs + tail)
  {
    if vs == [] {
      assert text + rest == rest && vs + tail == tail;
    } else {
      DigitsOfAll(abc, vs[1..], text[1..], rest, tail);
      DigitsOfDigit(abc, vs[0], text[1..] + rest);
      Regroup([text[0]], text[1..], rest);
      Regroup([vs[0]], vs[1..], tail);
      assert text == [text[0]] + text[1..] && vs == [vs[0]] + vs[1..];
    }
  }

  lemma DigitsOfGroup(abc: Alphabet, d: seq<byte>, rest: string)
    requires Readable(abc) && 1 <= |d| <= 3 && Digits(rest).Some?
    ensures Digits(Group(abc, d) + rest) == Some(GroupDigits(d) + if |d| == 3 then Digits(rest).value else [])
  {
    var n := |d| + 1;
    var text, pad := Group(abc, d)[..n], Group(abc, d)[n..] + rest;
    assert Group(abc, d) + rest == text + pad;
    if |d| == 3 {
      assert pad == rest;
    } else {
      assert pad[0] == '=';
    }
    DigitsOfAll(abc, GroupDigits(d), text, pad, Digits(pad).value);
  }

  lemma {:induction false} DigitsOfEncoding(abc: Alphabet, d: seq<byte>)
    requires Readable(abc)
    ensures Digits(Encode(abc, d)) == Some(Sextets(d))
  {
    if 1 <= |d| <= 3 {
      DigitsOfGroup(abc, d, "");
      assert Group(abc, d) + "" == Encode(abc, d);
      assert GroupDigits(d) + [] == GroupDigits(d);
    } else if |d| > 3 {
      DigitsOfEncoding(abc, d[3..]);
      DigitsOfGroup(abc, d[..3], Encode(abc, d[3..]));
    }
  }

  /** The text without the characters the decoder skips. */
  function Strip(text: string): string {
    if text == "" then "" else (if text[0] in "\n\r " then "" else [text[0]]) + Strip(text[1..])
  }

  lemma {:induction false} SkippingIsStripping(text: string)
    ensures Digits(text) == Digits(Strip(text))
  {
    if text == "" {
    } else {
      SkippingIsStripping(text[1..]);
      if Skipped(text[0]) {
        assert Strip(text) == Strip(text[1..]);
      } else {
        assert Strip(text)[0] == text[0] && Strip(text)[1..] == Strip(text[1..]);
      }
    }
  }

  lemma DecodesEncoding(abc: Alphabet, d: seq<byte>)
    requires Readable(abc)
    ensures Decode(Encode(abc, d)) == Some(d)
  {
    DigitsOfEncoding(abc, d);
    UnpackSextets(d);
  }

  lemma ValueIsUnique(c: char, d: char)
    requires Value(c) == Value(d) >= 0
    ensures c == d
  {
  }

  lemma DigitIsInAlphabet(c: char)
    ensures Value(c) >= 0 <==> c in STANDARD
  {
    StandardIsReadable();
    if Value(c) >= 0 {
      var v: sextet := Value(c);
      assert Value(STANDARD[v]) == v;
      ValueIsUnique(c, STANDARD[v]);
    }
    if c in STANDARD {
      var v :| 0 <= v < |STANDARD| && STANDARD[v] == c;
      var w: sextet := v;
      assert Value(STANDARD[w]) == w;
    }
  }

  /** A character the decoder passes: a line break, a space or a digit. */
  ghost predicate Passes(c: char) {
    c in "\n\r " || c in STANDARD
  }

  ghost predicate AllPass(text: string, n: nat)
    requires n <= |text|
  {
    forall k :: 0 <= k < n ==> Passes(text[k])
  }

  lemma AllPassTail(text: string, n: nat)
    requires 0 < n <= |text|
    ensures AllPass(text, n) <==> Passes(text[0]) && AllPass(text[1..], n - 1)
  {
    if Passes(text[0]) && AllPass(text[1..], n - 1) {
      forall k | 0 <= k < n
        ensures Passes(text[k])
      {
        assert k > 0 ==> text[k] == text[1..][k - 1];
      }
    }
    if AllPass(text, n) {
      forall k | 0 <= k < n - 1
        ensures Passes(text[1..][k])
      {
        assert text[1..][k] == text[k + 1];
      }
    }
  }

  /** A text decodes exactly when all characters in front of its padding are digits, line breaks or
      spaces. */
  lemma {:induction false} DecodesExactly(text: string)
    ensures Decode(text).Some? <==> AllPass(text, IndexOf(text, '='))
  {
    if text == "" || text[0] == '=' {
    } else {
      DecodesExactly(text[1..]);
      DigitIsInAlphabet(text[0]);
      AllPassTail(text, IndexOf(text, '='));
    }
  }

  /** The decoder recovers the bytes from their encoding with line breaks or spaces anywhere in it. */
  lemma DecoderInvertsEncoders(text: string, d: seq<byte>)
    requires Strip(text) == Encode(STANDARD, d)
    ensures Decode(text) == Some(d)
  {
    StandardIsReadable();
    SkippingIsStripping(text);
    DigitsOfEncoding(STANDARD, d);
    UnpackSextets(d);
  }

  // ---- PEM bodies ----

  /** Lines of at most 64 characters, joined by line breaks. */
  function Lines(text: string): string {
    if |text| <= 64 then text else text[..64] + "\n" + Lines(text[64..])
  }

  lemma StripHead(c: char, rest: string)
    ensures Strip([c] + rest) == if Skipped(c) then Strip(rest) else [c] + Strip(rest)
  {
    assert ([c] + rest)[1..] == rest;
  }

  lemma {:induction false} StripAppend(a: string, b: string)
    ensures Strip(a + b) == Strip(a) + Strip(b)
  {
    if a == "" {
      assert a + b == b && Strip(a) + Strip(b) == Strip(b);
    } else {
      var c, rest := a[0], a[1..];
      StripAppend(rest, b);
      StripHead(c, rest);
      StripHead(c, rest + b);
      Regroup([c], rest, b);
      Regroup([c], Strip(rest), Strip(b));
      assert a == [c] + rest;
    }
  }

  lemma {:induction false} StripKeeps(text: string)
    requires forall k :: 0 <= k < |text| ==> !Skipped(text[k])
    ensures Strip(text) == text
  {
    if text == "" {
    } else {
      StripKeeps(text[1..]);
    }
  }

  lemma {:induction false} StripLines(text: string)
    requires forall k :: 0 <= k < |text| ==> !Skipped(text[k])
    ensures Strip(Lines(text)) == text
  {
    if |text| <= 64 {
      StripKeeps(text);
    } else {
      StripLines(text[64..]);
      StripKeeps(text[..64]);
      StripAppend(text[..64] + "\n", Lines(text[64..]));
      StripAppend(text[..64], "\n");
      assert Strip("\n") == "" by {
        assert "\n"[1..] == "";
      }
      assert text == text[..64] + text[64..];
    }
  }

  lemma {:induction false} EncodingHasNoBlanks(abc: Alphabet, d: seq<byte>)
    requires Readable(abc)
    ensures forall k :: 0 <= k < |Encode(abc, d)| ==> !Skipped(Encode(abc, d)[k])
  {
    if |d| <= 3 {
    } else {
      EncodingHasNoBlanks(abc, d[3..]);
    }
  }

  /** A certificate's PEM body decodes to the certificate. */
  lemma PemBodyDecodes(d: seq<byte>)
    ensures Decode(Lines(Encode(STANDARD, d))) == Some(d)
  {
    StandardIsReadable();
    EncodingHasNoBlanks(STANDARD, d);
    StripLines(Encode(STANDARD, d));
    DecoderInvertsEncoders(Lines(Encode(STANDARD, d)), d);
  }
}
