/**
 The server's header encoder (pajamax/src/hpack_encoder.rs). It puts two headers into the peer's
 dynamic table and refers to them by the rank at which they entered, counted from its own start.
*/
module HpackEncoder {
  import opened Wrappers
  import opened Bits
  import opened HpackInt
  import opened HpackReference
  import opened HpackFields

  /** "content-type", "application/grpc", "grpc-status", "grpc-message", "grpc-accept-encoding" */
  const CONTENT_TYPE: seq<byte> := [99, 111, 110, 116, 101, 110, 116, 45, 116, 121, 112, 101]
  const APPLICATION_GRPC: seq<byte> := [97, 112, 112, 108, 105, 99, 97, 116, 105, 111, 110, 47, 103, 114, 112, 99]
  const GRPC_STATUS: seq<byte> := [103, 114, 112, 99, 45, 115, 116, 97, 116, 117, 115]
  const GRPC_MESSAGE: seq<byte> := [103, 114, 112, 99, 45, 109, 101, 115, 115, 97, 103, 101]
  const GRPC_ACCEPT_ENCODING: seq<byte> :=
    [103, 114, 112, 99, 45, 97, 99, 99, 101, 112, 116, 45, 101, 110, 99, 111, 100, 105, 110, 103]
  /** "gzip,deflate,zstd" */
  const ACCEPTED: seq<byte> := [103, 122, 105, 112, 44, 100, 101, 102, 108, 97, 116, 101, 44, 122, 115, 116, 100]

  /** A number in decimal. */
  function Decimal(n: nat): (s: seq<byte>)
    ensures s != []
  {
    if n < 10 then [48 + n] else Decimal(n / 10) + [48 + n % 10]
  }

  /** What decimal digits stand for. */
  function Number(s: seq<byte>): int {
    if s == [] then 0 else 10 * Number(s[..|s| - 1]) - 48 + s[|s| - 1]
  }

  lemma {:induction false} DecimalIsNumber(n: nat)
    ensures Number(Decimal(n)) == n
    ensures forall i :: 0 <= i < |Decimal(n)| ==> 48 <= Decimal(n)[i] <= 57
    ensures |Decimal(n)| > 1 ==> Decimal(n)[0] != 48
  {
    if n >= 10 {
      DecimalIsNumber(n / 10);
      assert Decimal(n)[..|Decimal(n)| - 1] == Decimal(n / 10);
    } else {
      assert [48 + n][..0] == [];
    }
  }

  /** The names and values written are these texts. */
  lemma WrittenTexts()
    ensures CONTENT_TYPE == Ascii("content-type") && APPLICATION_GRPC == Ascii("application/grpc")
    ensures GRPC_ACCEPT_ENCODING == Ascii("grpc-accept-encoding") && ACCEPTED == Ascii("gzip,deflate,zstd")
  {}

  lemma StatusTexts()
    ensures GRPC_STATUS == Ascii("grpc-status") && GRPC_MESSAGE == Ascii("grpc-message")
    ensures STATUS == Ascii(":status") && S200 == Ascii("200") && Decimal(0) == Ascii("0")
  {
    assert Decimal(0) == [48];
  }

  const CODES: seq<seq<byte>> :=
    [[48], [49], [50], [51], [52], [53], [54], [55], [56], [57],
     [49, 48], [49, 49], [49, 50], [49, 51], [49, 52], [49, 53], [49, 54]]

  const STATUS_OK: Header := Header(STATUS, S200)
  const TYPE_GRPC: Header := Header(CONTENT_TYPE, APPLICATION_GRPC)
  const ACCEPT: Header := Header(GRPC_ACCEPT_ENCODING, ACCEPTED)
  const STATUS_ZERO: Header := Header(GRPC_STATUS, Decimal(0))

  /** How many entries it has made, and the ranks of the two it knows. */
  datatype Ranks = Ranks(size: nat, statusZero: Option<nat>, contentType: Option<nat>)

  const NO_RANKS: Ranks := Ranks(0, None, None)

  predicate RankIn(rank: Option<nat>, size: nat) {
    rank.Some? ==> 1 <= rank.value <= size
  }

  predicate Consistent(r: Ranks) {
    && RankIn(r.statusZero, r.size) && RankIn(r.contentType, r.size)
    && r.size == (if r.statusZero.Some? then 1 else 0) + (if r.contentType.Some? then 1 else 0)
    && (r.statusZero.Some? && r.contentType.Some? ==> r.statusZero != r.contentType)
  }

  /** The index of the entry made at a rank, when `size` entries have been made. */
  function DynamicIndex(size: nat, rank: nat): (i: nat)
    requires rank <= size
    ensures i >= 62
  {
    size - rank + 62
  }

  function NewEntry(h: Header): Field {
    Literal(true, ByText(Plain(h.name)), Plain(h.value))
  }

  function PlainField(name: seq<byte>, value: seq<byte>): Field {
    Literal(false, ByText(Plain(name)), Plain(value))
  }

  /** The field each call writes. */
  function StatusZeroField(r: Ranks): Field
    requires Consistent(r)
  {
    if r.statusZero.Some? then Indexed(DynamicIndex(r.size, r.statusZero.value)) else NewEntry(STATUS_ZERO)
  }

  function AfterStatusZero(r: Ranks): Ranks {
    if r.statusZero.Some? then r else Ranks(r.size + 1, Some(r.size + 1), r.contentType)
  }

  function ContentTypeField(r: Ranks): Field
    requires Consistent(r)
  {
    if r.contentType.Some? then Indexed(DynamicIndex(r.size, r.contentType.value)) else NewEntry(TYPE_GRPC)
  }

  function AfterContentType(r: Ranks): Ranks {
    if r.contentType.Some? then r else Ranks(r.size + 1, r.statusZero, Some(r.size + 1))
  }

  function StatusField(r: Ranks, code: nat): Field
    requires Consistent(r)
  {
    if r.statusZero.Some? then
      Literal(false, ByIndex(DynamicIndex(r.size, r.statusZero.value)), Plain(Decimal(code)))
    else PlainField(GRPC_STATUS, Decimal(code))
  }

  lemma FieldsAreShort(r: Ranks)
    requires Consistent(r)
    ensures Writable(StatusZeroField(r)) && Short(StatusZeroField(r))
    ensures Writable(ContentTypeField(r)) && Short(ContentTypeField(r))
    ensures Writable(Indexed(8)) && Short(Indexed(8))
    ensures Writable(PlainField(GRPC_ACCEPT_ENCODING, ACCEPTED)) && Short(PlainField(GRPC_ACCEPT_ENCODING, ACCEPTED))
    ensures Consistent(AfterStatusZero(r)) && Consistent(AfterContentType(r))
  {}

  // ---------------------------------------------------------------- the code

  method EncodeStr(val: seq<byte>, dst0: seq<byte>) returns (dst: seq<byte>)
    ensures dst == dst0 + StrBytes(val)
  {
    assert Pow2(7) == 128;
    dst := EncodeInt(|val|, 7, 0, dst0);
    AppendAssoc(dst0, EncInt(|val|, 7, 0), val);
    dst := dst + val;
  }

  /** The two strings of a literal, after its first octet. */
  method EncodePair(name: seq<byte>, value: seq<byte>, ghost dst0: seq<byte>, ghost head: seq<byte>, dst1: seq<byte>)
    returns (dst: seq<byte>)
    requires dst1 == dst0 + head
    ensures dst == dst0 + (head + (StrBytes(name) + StrBytes(value)))
  {
    dst := EncodeStr(name, dst1);
    dst := EncodeStr(value, dst);
    AppendAssoc(dst1, StrBytes(name), StrBytes(value));
    AppendAssoc(dst0, head, StrBytes(name) + StrBytes(value));
  }

  method EncodeHeader(name: seq<byte>, value: seq<byte>, dst0: seq<byte>) returns (dst: seq<byte>)
    ensures dst == dst0 + FieldBytes(PlainField(name, value))
  {
    dst := EncodePair(name, value, dst0, [0], dst0 + [0]);
  }

  method EncodeWithIndexedName(name: nat, value: seq<byte>, dst0: seq<byte>) returns (dst: seq<byte>)
    requires name > 0
    ensures dst == dst0 + FieldBytes(Literal(false, ByIndex(name), Plain(value)))
  {
    assert Pow2(4) == 16;
    dst := EncodeInt(name, 4, 0, dst0);
    dst := EncodeStr(value, dst);
    AppendAssoc(dst0, EncInt(name, 4, 0), StrBytes(value));
  }

  method EncodeIndex(index: nat, dst0: seq<byte>) returns (dst: seq<byte>)
    ensures dst == dst0 + FieldBytes(Indexed(index))
  {
    assert Pow2(7) == 128;
    dst := EncodeInt(index, 7, 0x80, dst0);
  }

  class Encoder {
    var dynamicTableSize: nat
    var rankGrpcStatusZero: Option<nat>
    var rankContentType: Option<nat>

    constructor ()
      ensures Abs() == NO_RANKS
    {
      dynamicTableSize := 0;
      rankGrpcStatusZero := None;
      rankContentType := None;
    }

    function Abs(): Ranks
      reads this
    {
      Ranks(dynamicTableSize, rankGrpcStatusZero, rankContentType)
    }

    method EncodeStatus200(dst0: seq<byte>) returns (dst: seq<byte>)
      ensures dst == dst0 + FieldBytes(Indexed(8))
    {
      dst := EncodeIndex(8, dst0);
    }

    method EncodeAndIndexHeader(name: seq<byte>, value: seq<byte>, dst0: seq<byte>) returns (dst: seq<byte>)
      modifies this`dynamicTableSize
      ensures dst == dst0 + FieldBytes(NewEntry(Header(name, value)))
      ensures dynamicTableSize == old(dynamicTableSize) + 1
    {
      assert Pow2(6) == 64;
      dst := EncodeInt(0, 6, 0x40, dst0);
      dst := EncodePair(name, value, dst0, EncInt(0, 6, 0x40), dst);
      dynamicTableSize := dynamicTableSize + 1;
    }

    method EncodeGrpcStatusZero(dst0: seq<byte>) returns (dst: seq<byte>)
      requires Consistent(Abs())
      modifies this
      ensures dst == dst0 + FieldBytes(StatusZeroField(old(Abs())))
      ensures Abs() == AfterStatusZero(old(Abs()))
    {
      match rankGrpcStatusZero
      case Some(rank) =>
        dst := EncodeIndex(DynamicIndex(dynamicTableSize, rank), dst0);
      case None =>
        dst := EncodeAndIndexHeader(GRPC_STATUS, CODES[0], dst0);
        rankGrpcStatusZero := Some(dynamicTableSize);
    }

    method EncodeContentType(dst0: seq<byte>) returns (dst: seq<byte>)
      requires Consistent(Abs())
      modifies this
      ensures dst == dst0 + FieldBytes(ContentTypeField(old(Abs())))
      ensures Abs() == AfterContentType(old(Abs()))
    {
      match rankContentType
      case Some(rank) =>
        dst := EncodeIndex(DynamicIndex(dynamicTableSize, rank), dst0);
      case None =>
        dst := EncodeAndIndexHeader(CONTENT_TYPE, APPLICATION_GRPC, dst0);
        rankContentType := Some(dynamicTableSize);
    }

    method EncodeGrpcStatusNonzero(code: nat, dst0: seq<byte>) returns (dst: seq<byte>)
      requires Consistent(Abs())
      ensures dst == dst0 + FieldBytes(StatusField(Abs(), code))
    {
      var codeStr: seq<byte>;
      if code > 16 {
        codeStr := Decimal(code);
      } else {
        codeStr := CODES[code];
        CodesAreDecimal(code);
      }
      match rankGrpcStatusZero
      case Some(rank) =>
        dst := EncodeWithIndexedName(DynamicIndex(dynamicTableSize, rank), codeStr, dst0);
      case None =>
        dst := EncodeHeader(GRPC_STATUS, codeStr, dst0);
    }

    method EncodeGrpcMessage(msg: seq<byte>, dst0: seq<byte>) returns (dst: seq<byte>)
      ensures dst == dst0 + FieldBytes(PlainField(GRPC_MESSAGE, msg))
    {
      dst := EncodeHeader(GRPC_MESSAGE, msg, dst0);
    }

    method EncodeGrpcAcceptEncoding(dst0: seq<byte>) returns (dst: seq<byte>)
      ensures dst == dst0 + FieldBytes(PlainField(GRPC_ACCEPT_ENCODING, ACCEPTED))
    {
      dst := EncodeHeader(GRPC_ACCEPT_ENCODING, ACCEPTED, dst0);
    }
  }

  lemma CodesAreDecimal(code: nat)
    requires code <= 16
    ensures CODES[code] == Decimal(code)
  {}

  // ---------------------------------------------------------------- the peer's table

  /** The peer's table holds the entries at the places their ranks say, and nothing else. */
  ghost predicate Mirrors(r: Ranks, p: Peer) {
    && Consistent(r)
    && p.maxSize == TABLE_SIZE
    && |p.table| == r.size
    && (r.statusZero.Some? ==> p.table[r.size - r.statusZero.value] == STATUS_ZERO)
    && (r.contentType.Some? ==> p.table[r.size - r.contentType.value] == TYPE_GRPC)
  }

  /** At most two entries, of 104 octets together: nothing of the server's is ever evicted. */
  lemma TableStaysSmall(r: Ranks, p: Peer)
    requires Mirrors(r, p)
    ensures |p.table| <= 2 && Size(p.table) <= 104
  {
    var t := p.table;
    assert Size([]) == 0;
    if |t| == 1 {
      assert t[1..] == [];
    } else if |t| == 2 {
      assert t[1..] == [t[1]] && [t[1]][1..] == [];
      assert Size(t[1..]) == |t[1].name| + |t[1].value| + 32;
    }
  }

  lemma InsertKeepsAll(p: Peer, h: Header)
    requires Size([h] + p.table) <= p.maxSize
    ensures Insert(p, h).table == [h] + p.table
  {}

  lemma StatusZeroIsRead(std: Standard, r: Ranks, p: Peer) returns (p': Peer)
    requires |std.huffman| == 257 && |std.statics| == STATIC_LEN
    requires Mirrors(r, p)
    ensures Apply(std, p, StatusZeroField(r)) == Some((p', Some(STATUS_ZERO)))
    ensures Mirrors(AfterStatusZero(r), p')
  {
    p' := p;
    if r.statusZero.None? {
      p' := Insert(p, STATUS_ZERO);
      TableStaysSmall(r, p);
      assert ([STATUS_ZERO] + p.table)[1..] == p.table;
      InsertKeepsAll(p, STATUS_ZERO);
    }
  }

  lemma ContentTypeIsRead(std: Standard, r: Ranks, p: Peer) returns (p': Peer)
    requires |std.huffman| == 257 && |std.statics| == STATIC_LEN
    requires Mirrors(r, p)
    ensures Apply(std, p, ContentTypeField(r)) == Some((p', Some(TYPE_GRPC)))
    ensures Mirrors(AfterContentType(r), p')
  {
    p' := p;
    if r.contentType.None? {
      p' := Insert(p, TYPE_GRPC);
      TableStaysSmall(r, p);
      assert ([TYPE_GRPC] + p.table)[1..] == p.table;
      InsertKeepsAll(p, TYPE_GRPC);
    }
  }

  lemma StatusIsRead(std: Standard, r: Ranks, p: Peer, code: nat)
    requires |std.huffman| == 257 && |std.statics| == STATIC_LEN
    requires Mirrors(r, p)
    ensures Apply(std, p, StatusField(r, code)) == Some((p, Some(Header(GRPC_STATUS, Decimal(code)))))
  {}

  // ---------------------------------------------------------------- header blocks

  function OpeningFields(r: Ranks): seq<Field>
    requires Consistent(r)
  {
    [Indexed(8), ContentTypeField(r), PlainField(GRPC_ACCEPT_ENCODING, ACCEPTED)]
  }

  function TrailerFields(r: Ranks): seq<Field>
    requires Consistent(r)
  {
    [StatusZeroField(r)]
  }

  function FailureFields(r: Ranks, code: nat, message: seq<byte>): seq<Field>
    requires Consistent(r)
  {
    OpeningFields(r) + [StatusField(AfterContentType(r), code), PlainField(GRPC_MESSAGE, message)]
  }

  const OPENING: seq<Header> := [STATUS_OK, TYPE_GRPC, ACCEPT]

  function Failure(code: nat, message: seq<byte>): seq<Header> {
    OPENING + [Header(GRPC_STATUS, Decimal(code)), Header(GRPC_MESSAGE, message)]
  }

  lemma ApplyOne(std: Standard, p: Peer, f: Field, h: Header, p1: Peer, fs: seq<Field>, p2: Peer, hs: seq<Header>)
    requires |std.huffman| == 257 && |std.statics| == STATIC_LEN
    requires Apply(std, p, f) == Some((p1, Some(h))) && ApplyAll(std, p1, fs) == Some((p2, hs))
    ensures ApplyAll(std, p, [f] + fs) == Some((p2, [h] + hs))
  {
    assert ([f] + fs)[1..] == fs;
  }

  /** The opening of a response, and whatever fields follow it in the block. */
  lemma OpeningIsRead(std: Standard, r: Ranks, p: Peer, p1: Peer, fs: seq<Field>, p2: Peer, hs: seq<Header>)
    requires ValidStatics(std.statics) && |std.huffman| == 257 && Consistent(r)
    requires Apply(std, p, ContentTypeField(r)) == Some((p1, Some(TYPE_GRPC)))
    requires ApplyAll(std, p1, fs) == Some((p2, hs))
    ensures ApplyAll(std, p, OpeningFields(r) + fs) == Some((p2, OPENING + hs))
  {
    var accept := PlainField(GRPC_ACCEPT_ENCODING, ACCEPTED);
    ApplyOne(std, p1, accept, ACCEPT, p1, fs, p2, hs);
    ApplyOne(std, p, ContentTypeField(r), TYPE_GRPC, p1, [accept] + fs, p2, [ACCEPT] + hs);
    ApplyOne(std, p, Indexed(8), STATUS_OK, p, [ContentTypeField(r)] + ([accept] + fs), p2,
      [TYPE_GRPC] + ([ACCEPT] + hs));
    assert OpeningFields(r) + fs == [Indexed(8)] + ([ContentTypeField(r)] + ([accept] + fs));
    assert OPENING + hs == [STATUS_OK] + ([TYPE_GRPC] + ([ACCEPT] + hs));
  }
}
