/** HTTP/2 frames (pajamax/src/http2.rs): parsing, and building in place. */
module Http2 {
  import opened Wrappers
  import opened Arith
  import opened Bits

  datatype FrameKind =
    | Data | Headers | Priority | Reset | Settings | PushPromise
    | Ping | GoAway | WindowUpdate | Continuation | Unknown

  function KindFrom(b: byte): FrameKind {
    match b
    case 0 => Data
    case 1 => Headers
    case 2 => Priority
    case 3 => Reset
    case 4 => Settings
    case 5 => PushPromise
    case 6 => Ping
    case 7 => GoAway
    case 8 => WindowUpdate
    case 9 => Continuation
    case _ => Unknown
  }

  function KindByte(k: FrameKind): (b: byte)
    ensures KindFrom(b) == k
  {
    match k
    case Data => 0
    case Headers => 1
    case Priority => 2
    case Reset => 3
    case Settings => 4
    case PushPromise => 5
    case Ping => 6
    case GoAway => 7
    case WindowUpdate => 8
    case Continuation => 9
    case Unknown => 10
  }

  /** Flag bits: 0x1 END_STREAM or ACK, 0x4 END_HEADERS, 0x8 PADDED, 0x20 PRIORITY. */
  predicate IsEndStream(flags: byte) { flags % 2 == 1 }

  predicate IsAck(flags: byte) { flags % 2 == 1 }

  predicate IsEndHeaders(flags: byte) { (flags / 4) % 2 == 1 }

  predicate IsPadded(flags: byte) { (flags / 8) % 2 == 1 }

  predicate IsPriority(flags: byte) { (flags / 32) % 2 == 1 }

  /** Each of them is set if or-ing its bit in changes nothing. */
  lemma FlagBits(flags: byte)
    ensures IsEndStream(flags) <==> Or(flags, 0x1) == flags
    ensures IsAck(flags) <==> Or(flags, 0x1) == flags
    ensures IsEndHeaders(flags) <==> Or(flags, 0x4) == flags
    ensures IsPadded(flags) <==> Or(flags, 0x8) == flags
    ensures IsPriority(flags) <==> Or(flags, 0x20) == flags
  {
    OrBit(flags, 0);
    OrBit(flags, 2);
    OrBit(flags, 3);
    OrBit(flags, 5);
    assert Pow2(0) == 1 && Pow2(2) == 4 && Pow2(3) == 8 && Pow2(5) == 32;
  }

  const END_STREAM: byte := 1
  const END_HEADERS: byte := 4
  const ACK: byte := 1

  // ---------------------------------------------------------------- big-endian numbers

  const U24: nat := 0x100_0000
  const U31: nat := 0x8000_0000
  const U32: nat := 0x1_0000_0000

  /** `(n as u32).to_be_bytes()` */
  function BeBytes(n: nat): (s: seq<byte>)
    ensures |s| == 4
  {
    [(n / 0x100_0000) % 256, (n / 0x1_0000) % 256, (n / 0x100) % 256, n % 256]
  }

  function FromBe(s: seq<byte>): (n: nat)
    requires |s| == 4
    ensures n < U32
  {
    (s[0] as nat) * 0x100_0000 + (s[1] as nat) * 0x1_0000 + (s[2] as nat) * 0x100 + s[3] as nat
  }

  lemma BeReadsBack(n: nat)
    ensures FromBe(BeBytes(n)) == n % U32
  {
    var a, b, c := n / 0x100, n / 0x1_0000, n / 0x100_0000;
    assert a / 0x100 == b && b / 0x100 == c;
    assert n == 0x100 * a + n % 256 && a == 0x100 * b + a % 256 && b == 0x100 * c + b % 256;
    assert n == (c / 256) * U32 + (c % 256) * 0x100_0000 + (b % 256) * 0x1_0000 + (a % 256) * 0x100 + n % 256;
    DivModUnique(n, U32, c / 256, FromBe(BeBytes(n)));
  }

  // ---------------------------------------------------------------- parsing

  const HEAD_SIZE: nat := 9

  datatype FrameHeader = FrameHeader(len: nat, kind: FrameKind, flags: byte, id: nat)

  datatype Frame = Frame(kind: FrameKind, flags: byte, id: nat, payload: seq<byte>)

  /** The nine octets of a frame header; the reserved bit of the stream identifier is dropped. */
  function ParseHead(buf: seq<byte>): (h: FrameHeader)
    requires |buf| == HEAD_SIZE
    ensures h.len < U24 && h.id < U31
  {
    FrameHeader(FromBe([0] + buf[..3]), KindFrom(buf[3]), buf[4], FromBe(buf[5..]) % U31)
  }

  /**
   Section 4.1 of RFC 7540: three octets of length, one of kind, one of flags, and four of the identifier,
   whose first bit is reserved; all of them most significant octet first.
  */
  lemma HeadExact(a: byte, b: byte, c: byte, kind: byte, flags: byte, i: byte, j: byte, k: byte, l: byte)
    ensures var h := ParseHead([a, b, c, kind, flags, i, j, k, l]);
            && h.len == a * 0x1_0000 + b * 0x100 + c
            && h.id == (i % 128) * 0x100_0000 + j * 0x1_0000 + k * 0x100 + l
            && h.flags == flags && IsKind(h.kind, kind)
  {
    var buf := [a, b, c, kind, flags, i, j, k, l];
    assert [0] + buf[..3] == [0, a, b, c];
    assert buf[5..] == [i, j, k, l];
    var low := (i % 128) * 0x100_0000 + j * 0x1_0000 + k * 0x100 + l;
    assert FromBe([i, j, k, l]) == (i / 128) * U31 + low;
    DivModUnique(FromBe([i, j, k, l]), U31, i / 128, low);
  }

  /** Sections 6.1 to 6.10. */
  predicate IsKind(kind: FrameKind, n: byte) {
    && (kind == Data <==> n == 0x0) && (kind == Headers <==> n == 0x1) && (kind == Priority <==> n == 0x2)
    && (kind == Reset <==> n == 0x3) && (kind == Settings <==> n == 0x4) && (kind == PushPromise <==> n == 0x5)
    && (kind == Ping <==> n == 0x6) && (kind == GoAway <==> n == 0x7) && (kind == WindowUpdate <==> n == 0x8)
    && (kind == Continuation <==> n == 0x9) && (kind == Unknown <==> n > 0x9)
  }

  /** `Frame::parse`: the first frame, when all of it is there. */
  function ParseFrame(buf: seq<byte>): (r: Option<Frame>)
    ensures r.Some? ==> HEAD_SIZE + |r.value.payload| <= |buf|
  {
    if |buf| < HEAD_SIZE then None
    else
      var h := ParseHead(buf[..HEAD_SIZE]);
      if |buf| - HEAD_SIZE < h.len then None
      else Some(Frame(h.kind, h.flags, h.id, buf[HEAD_SIZE..HEAD_SIZE + h.len]))
  }

  function FrameSize(f: Frame): nat {
    HEAD_SIZE + |f.payload|
  }

  /** All the frames of a string of octets, and what is left of it. */
  function ParseFrames(buf: seq<byte>): (seq<Frame>, seq<byte>)
    decreases |buf|
  {
    match ParseFrame(buf)
    case None => ([], buf)
    case Some(f) =>
      var (fs, rest) := ParseFrames(buf[FrameSize(f)..]);
      ([f] + fs, rest)
  }

  // ---------------------------------------------------------------- padding

  /** Padding off: a pad length in the first octet. Padding that leaves no content is an error. */
  function StripPadding(flags: byte, buf: seq<byte>): Result<seq<byte>> {
    if !IsPadded(flags) then Ok(buf)
    else if buf == [] || |buf| <= 1 + buf[0] as nat then Err(InvalidHttp2)
    else Ok(buf[1..|buf| - buf[0] as nat])
  }

  function StripHeaders(flags: byte, buf: seq<byte>): Result<seq<byte>> {
    var stripped :- StripPadding(flags, buf);
    if !IsPriority(flags) then Ok(stripped)
    else if |stripped| < 5 then Err(InvalidHttp2)
    else Ok(stripped[5..])
  }

  /**
   Section 6.1 of RFC 7540: with bit 0x8 a payload is the length of the padding, some content, and the
   padding; without, it is the content.
  */
  ghost predicate HasContent(flags: byte, payload: seq<byte>, content: seq<byte>) {
    if flags / 8 % 2 == 1 then
      content != [] && exists pad: seq<byte> :: |pad| < 256 && payload == [|pad|] + (content + pad)
    else content == payload
  }

  /** Section 6.2: with bit 0x20 five octets of priority come before the header block. */
  ghost predicate HasBlock(flags: byte, payload: seq<byte>, block: seq<byte>) {
    exists priority: seq<byte> ::
      |priority| == (if flags / 32 % 2 == 1 then 5 else 0) && HasContent(flags, payload, priority + block)
  }

  lemma PaddingIsStripped(flags: byte, content: seq<byte>, pad: seq<byte>)
    requires flags / 8 % 2 == 1 && content != [] && |pad| < 256
    ensures StripPadding(flags, [|pad|] + (content + pad)) == Ok(content)
  {
    var payload := [|pad|] + (content + pad);
    assert payload[1..|payload| - |pad|] == content;
  }

  /** The content that is handed on is the one the payload has; a payload without one is refused. */
  lemma PaddingExact(flags: byte, payload: seq<byte>, content: seq<byte>)
    ensures StripPadding(flags, payload) == Ok(content) <==> HasContent(flags, payload, content)
    ensures !StripPadding(flags, payload).Ok? ==> StripPadding(flags, payload) == Err(InvalidHttp2)
  {
    if flags / 8 % 2 == 1 {
      if StripPadding(flags, payload) == Ok(content) {
        var pad := payload[|payload| - payload[0]..];
        assert payload == [|pad|] + (content + pad);
      }
      if HasContent(flags, payload, content) {
        var pad: seq<byte> :| |pad| < 256 && payload == [|pad|] + (content + pad);
        PaddingIsStripped(flags, content, pad);
      }
    }
  }

  /** Padding without content is refused, which the standard allows. */
  lemma OnlyPaddingIsRefused(flags: byte, pad: seq<byte>)
    requires flags / 8 % 2 == 1 && |pad| < 256
    ensures StripPadding(flags, [|pad|] + pad) == Err(InvalidHttp2)
  {}

  /** The header block that is handed on is the one the payload has; a payload without one is refused. */
  lemma PriorityExact(flags: byte, payload: seq<byte>, block: seq<byte>)
    ensures StripHeaders(flags, payload) == Ok(block) <==> HasBlock(flags, payload, block)
    ensures !StripHeaders(flags, payload).Ok? ==> StripHeaders(flags, payload) == Err(InvalidHttp2)
  {
    var stripped := StripPadding(flags, payload);
    if stripped.Ok? {
      PaddingExact(flags, payload, stripped.value);
    } else {
      PaddingExact(flags, payload, []);
    }
    if StripHeaders(flags, payload) == Ok(block) {
      var n := if flags / 32 % 2 == 1 then 5 else 0;
      var priority := stripped.value[..n];
      assert priority + block == stripped.value;
    }
    if HasBlock(flags, payload, block) {
      var priority: seq<byte> :|
        |priority| == (if flags / 32 % 2 == 1 then 5 else 0) && HasContent(flags, payload, priority + block);
      PaddingExact(flags, payload, priority + block);
      assert (priority + block)[|priority|..] == block;
    }
  }

  /** The content of a DATA payload. */
  ghost function ContentOf(f: Frame): Option<seq<byte>> {
    if exists content :: HasContent(f.flags, f.payload, content) then
      var content :| HasContent(f.flags, f.payload, content);
      Some(content)
    else None
  }

  /** The header block, or the part of one, in a HEADERS payload. */
  ghost function BlockIn(f: Frame): Option<seq<byte>> {
    if exists block :: HasBlock(f.flags, f.payload, block) then
      var block :| HasBlock(f.flags, f.payload, block);
      Some(block)
    else None
  }

  lemma ContentIsStripped(f: Frame)
    ensures ContentOf(f) == if StripPadding(f.flags, f.payload).Ok? then Some(StripPadding(f.flags, f.payload).value)
                            else None
  {
    var r := StripPadding(f.flags, f.payload);
    if r.Ok? {
      PaddingExact(f.flags, f.payload, r.value);
    }
    if ContentOf(f).Some? {
      PaddingExact(f.flags, f.payload, ContentOf(f).value);
    }
  }

  lemma BlockIsStripped(f: Frame)
    ensures BlockIn(f) == if StripHeaders(f.flags, f.payload).Ok? then Some(StripHeaders(f.flags, f.payload).value)
                          else None
  {
    var r := StripHeaders(f.flags, f.payload);
    if r.Ok? {
      PriorityExact(f.flags, f.payload, r.value);
    }
    if BlockIn(f).Some? {
      PriorityExact(f.flags, f.payload, BlockIn(f).value);
    }
  }

  // ---------------------------------------------------------------- building

  function HeadBytes(len: nat, kind: FrameKind, flags: byte, id: nat): (s: seq<byte>)
    ensures |s| == HEAD_SIZE
  {
    BeBytes(len)[1..] + [KindByte(kind)] + [flags] + BeBytes(id)
  }

  function FrameBytes(f: Frame): seq<byte> {
    HeadBytes(|f.payload|, f.kind, f.flags, f.id) + f.payload
  }

  function FramesBytes(fs: seq<Frame>): seq<byte> {
    if fs == [] then [] else FrameBytes(fs[0]) + FramesBytes(fs[1..])
  }

  /** Short enough for the length field, and no reserved bit. */
  predicate Sound(f: Frame) {
    |f.payload| < U24 && f.id < U31
  }

  /** What any header built reads as: lengths are cut to 24 bits, identifiers to 31. */
  lemma HeadReadsBack(len: nat, kind: FrameKind, flags: byte, id: nat)
    ensures ParseHead(HeadBytes(len, kind, flags, id)) == FrameHeader(len % U24, kind, flags, (id % U32) % U31)
  {
    var s := HeadBytes(len, kind, flags, id);
    var low := BeBytes(len)[1..];
    assert s[..3] == low;
    assert s[5..] == BeBytes(id);
    assert [0] + low == BeBytes(len % U24) by {
      LowBytes(len);
    }
    BeReadsBack(len % U24);
    BeReadsBack(id);
  }

  lemma LowBytes(n: nat)
    ensures BeBytes(n % U24) == [0] + BeBytes(n)[1..]
  {
    var r := n % U24;
    assert r / U24 == 0;
    LowOctet(n, 0x1_0000);
    LowOctet(n, 0x100);
    LowOctet(n, 1);
    var cut, all := BeBytes(r), BeBytes(n);
    assert cut[0] == 0 && cut[1] == all[1] && cut[2] == all[2] && cut[3] == all[3];
    assert cut == [0] + all[1..];
  }

  lemma LowOctet(n: nat, d: nat)
    requires d in {1, 0x100, 0x1_0000}
    ensures (n % U24 / d) % 256 == (n / d) % 256
  {
    var q, r := n / U24, n % U24;
    var e := U24 / d;
    assert n == (q * e) * d + r by {
      assert e * d == U24;
    }
    assert n / d == q * e + r / d;
    var k := e / 256;
    DivModUnique(q * e + r / d, 256, q * k + (r / d) / 256, (r / d) % 256);
  }

  lemma SoundHead(len: nat, kind: FrameKind, flags: byte, id: nat)
    requires len < U24 && id < U31
    ensures ParseHead(HeadBytes(len, kind, flags, id)) == FrameHeader(len, kind, flags, id)
  {
    HeadReadsBack(len, kind, flags, id);
    DivModUnique(len, U24, 0, len);
    DivModUnique(id, U32, 0, id);
    DivModUnique(id, U31, 0, id);
  }

  lemma ParseAfterHead(head: seq<byte>, payload: seq<byte>, rest: seq<byte>)
    requires |head| == HEAD_SIZE && ParseHead(head).len == |payload|
    ensures var h := ParseHead(head);
            ParseFrame(head + (payload + rest)) == Some(Frame(h.kind, h.flags, h.id, payload))
    ensures (head + (payload + rest))[HEAD_SIZE + |payload|..] == rest
  {
    var buf := head + (payload + rest);
    assert buf[..HEAD_SIZE] == head;
    assert buf[HEAD_SIZE..HEAD_SIZE + |payload|] == payload;
  }

  /** A sound frame reads back as itself, whatever follows it. */
  lemma FrameReadsBack(f: Frame, rest: seq<byte>)
    requires Sound(f)
    ensures ParseFrame(FrameBytes(f) + rest) == Some(f)
    ensures (FrameBytes(f) + rest)[FrameSize(f)..] == rest
  {
    var head := HeadBytes(|f.payload|, f.kind, f.flags, f.id);
    SoundHead(|f.payload|, f.kind, f.flags, f.id);
    AppendAssoc(head, f.payload, rest);
    ParseAfterHead(head, f.payload, rest);
  }

  /** A frame alone. */
  lemma OneReadsBack(f: Frame)
    requires Sound(f)
    ensures ParseFrames(FrameBytes(f)) == ([f], [])
  {
    FrameReadsBack(f, []);
    assert FrameBytes(f) + [] == FrameBytes(f);
    assert ParseFrames([]) == ([], []);
    assert [f] + [] == [f];
  }

  lemma {:induction false} FramesReadBack(fs: seq<Frame>, rest: seq<byte>)
    requires forall i :: 0 <= i < |fs| ==> Sound(fs[i])
    requires ParseFrame(rest).None?
    ensures ParseFrames(FramesBytes(fs) + rest) == (fs, rest)
    decreases |fs|
  {
    if fs == [] {
      assert [] + rest == rest;
    } else {
      AppendAssoc(FrameBytes(fs[0]), FramesBytes(fs[1..]), rest);
      FrameReadsBack(fs[0], FramesBytes(fs[1..]) + rest);
      FramesReadBack(fs[1..], rest);
      assert [fs[0]] + fs[1..] == fs;
    }
  }

  lemma {:induction false} FramesBytesAppend(a: seq<Frame>, b: seq<Frame>)
    ensures FramesBytes(a + b) == FramesBytes(a) + FramesBytes(b)
    decreases |a|
  {
    if a == [] {
      assert a + b == b;
    } else {
      assert (a + b)[1..] == a[1..] + b;
      FramesBytesAppend(a[1..], b);
      AppendAssoc(FrameBytes(a[0]), FramesBytes(a[1..]), FramesBytes(b));
    }
  }

  /** `output.resize(..)` by n octets of zero. */
  function Zeros(n: nat): (s: seq<byte>)
    ensures |s| == n
  {
    seq(n, _ => 0)
  }

  function Overwrite(s: seq<byte>, at: nat, piece: seq<byte>): seq<byte>
    requires at + |piece| <= |s|
  {
    s[..at] + piece + s[at + |piece|..]
  }

  lemma OverwriteOn(s: seq<byte>, at: nat, a: seq<byte>, b: seq<byte>)
    requires at + |a| + |b| <= |s|
    ensures Overwrite(Overwrite(s, at, a), at + |a|, b) == Overwrite(s, at, a + b)
  {
    var t := Overwrite(s, at, a);
    assert t[..at + |a|] == s[..at] + a;
    assert t[at + |a| + |b|..] == s[at + |a| + |b|..];
    AppendAssoc(s[..at], a, b);
  }

  /** Overwrites the octets from a position on. */
  method CopyInto(output0: seq<byte>, at: nat, piece: seq<byte>) returns (output: seq<byte>)
    requires at + |piece| <= |output0|
    ensures output == Overwrite(output0, at, piece)
  {
    output := output0[..at] + piece + output0[at + |piece|..];
  }

  /** `Frame::build_head` into the space left for it at `start`. */
  method BuildHead(len: nat, kind: FrameKind, flags: byte, id: nat, output0: seq<byte>, start: nat)
    returns (output: seq<byte>)
    requires start + HEAD_SIZE <= |output0|
    ensures output == Overwrite(output0, start, HeadBytes(len, kind, flags, id))
  {
    var tmp := BeBytes(len);
    output := CopyInto(output0, start, tmp[1..]);
    output := CopyInto(output, start + 3, [KindByte(kind)]);
    output := CopyInto(output, start + 4, [flags]);
    output := CopyInto(output, start + 5, BeBytes(id));
    OverwriteOn(output0, start, tmp[1..], [KindByte(kind)]);
    OverwriteOn(output0, start, tmp[1..] + [KindByte(kind)], [flags]);
    OverwriteOn(output0, start, tmp[1..] + [KindByte(kind)] + [flags], BeBytes(id));
  }
}
