/**
 A reference decoder for header blocks, after sections 2 to 6 of RFC 7541: it keeps header text, a
 dynamic table that evicts, and its maximum size.
*/
module HpackReference {
  import opened Wrappers
  import opened Bits
  import opened HpackInt
  import Huffman
  import HuffmanDecode

  datatype Header = Header(name: seq<byte>, value: seq<byte>)

  /** ":path", "/", "/index.html", "grpc-encoding", ":status", "200" */
  const PATH: seq<byte> := [58, 112, 97, 116, 104]
  const SLASH: seq<byte> := [47]
  const INDEX_HTML: seq<byte> := [47, 105, 110, 100, 101, 120, 46, 104, 116, 109, 108]
  const GRPC_ENCODING: seq<byte> := [103, 114, 112, 99, 45, 101, 110, 99, 111, 100, 105, 110, 103]

  const STATUS: seq<byte> := [58, 115, 116, 97, 116, 117, 115]
  const S200: seq<byte> := [50, 48, 48]

  /** The fixed tables of the standard, and the longest integer, in octets, a decoder accepts. */
  datatype Standard = Standard(huffman: Huffman.Code, statics: seq<Header>, maxInt: nat)

  const STATIC_LEN: nat := 61

  /** Appendix A has ":path" at 4 and 5 only, ":status 200" at 8, and no "grpc-encoding". */
  ghost predicate ValidStatics(statics: seq<Header>) {
    && |statics| == STATIC_LEN
    && statics[7] == Header(STATUS, S200)
    && statics[3] == Header(PATH, SLASH) && statics[4] == Header(PATH, INDEX_HTML)
    && (forall i :: 0 <= i < STATIC_LEN && i != 3 && i != 4 ==> statics[i].name != PATH)
    && (forall i :: 0 <= i < STATIC_LEN ==> statics[i].name != GRPC_ENCODING)
  }

  ghost predicate ValidStandard(std: Standard) {
    Huffman.ValidCode(std.huffman) && ValidStatics(std.statics)
  }

  // ---------------------------------------------------------------- wire forms

  /** A string literal as it stands on the wire. */
  datatype OutStr = Plain(s: seq<byte>) | Huff(s: seq<byte>)

  datatype Name = ByIndex(i: nat) | ByText(text: OutStr)

  datatype Field =
    | Indexed(i: nat)
    | Literal(indexing: bool, name: Name, value: OutStr)
    | SizeUpdate(size: nat)

  function Int(maxInt: nat, buf: seq<byte>, p: nat): (r: Option<(nat, nat)>)
    ensures r.Some? ==> 1 <= r.value.1 <= |buf|
  {
    match RfcInt(buf, p)
    case Some((v, n)) => if n <= maxInt then Some((v, n)) else None
    case None => None
  }

  /** Section 5.2: the length with a 7-bit prefix, the H bit above it. */
  function Str(maxInt: nat, buf: seq<byte>): (r: Option<(OutStr, nat)>)
    ensures r.Some? ==> 1 <= r.value.1 <= |buf|
  {
    match Int(maxInt, buf, 7)
    case None => None
    case Some((len, n)) =>
      if len > |buf| - n then None
      else
        var text := buf[n..n + len];
        Some((if buf[0] >= 128 then Huff(text) else Plain(text), n + len))
  }

  /** The strings of a literal, behind its index. */
  function LiteralText(maxInt: nat, buf: seq<byte>, indexing: bool, i: nat, n: nat): (r: Option<(Field, nat)>)
    requires 1 <= n <= |buf|
    ensures r.Some? ==> 1 <= r.value.1 <= |buf|
  {
    match Str(maxInt, buf[n..])
    case None => None
    case Some((text, n1)) =>
      if i != 0 then Some((Literal(indexing, ByIndex(i), text), n + n1))
      else
        match Str(maxInt, buf[n + n1..])
        case None => None
        case Some((value, n2)) => Some((Literal(indexing, ByText(text), value), n + n1 + n2))
  }

  function LiteralField(maxInt: nat, buf: seq<byte>, p: nat, indexing: bool): (r: Option<(Field, nat)>)
    ensures r.Some? ==> 1 <= r.value.1 <= |buf|
  {
    match Int(maxInt, buf, p)
    case None => None
    case Some((i, n)) => LiteralText(maxInt, buf, indexing, i, n)
  }

  /** Section 6: the representation at the start of a non-empty block, and its length. */
  function ParseField(maxInt: nat, buf: seq<byte>): (r: Option<(Field, nat)>)
    requires buf != []
    ensures r.Some? ==> 1 <= r.value.1 <= |buf|
  {
    if buf[0] >= 128 then
      match Int(maxInt, buf, 7)
      case None => None
      case Some((i, n)) => Some((Indexed(i), n))
    else if buf[0] >= 64 then LiteralField(maxInt, buf, 6, true)
    else if buf[0] >= 32 then
      match Int(maxInt, buf, 5)
      case None => None
      case Some((v, n)) => Some((SizeUpdate(v), n))
    else LiteralField(maxInt, buf, 4, false)
  }

  // ---------------------------------------------------------------- the dynamic table

  /** A decoder's dynamic table, newest entry first, with its maximum size. */
  datatype Peer = Peer(table: seq<Header>, maxSize: nat)

  const TABLE_SIZE: nat := 4096

  const EMPTY: Peer := Peer([], TABLE_SIZE)

  /** Section 4.1. */
  function Size(table: seq<Header>): nat {
    if table == [] then 0 else |table[0].name| + |table[0].value| + 32 + Size(table[1..])
  }

  /** Sections 4.3 and 4.4: the oldest entries go until the rest fits. */
  function Evict(table: seq<Header>, maxSize: nat): (r: seq<Header>)
    ensures r <= table
    ensures Size(r) <= maxSize
  {
    if Size(table) <= maxSize then table
    else Evict(table[..|table| - 1], maxSize)
  }

  function Insert(p: Peer, h: Header): Peer {
    p.(table := Evict([h] + p.table, p.maxSize))
  }

  /** Section 2.3.3: the index address space. */
  function Lookup(statics: seq<Header>, p: Peer, i: nat): Option<Header>
    requires |statics| == STATIC_LEN
  {
    if i == 0 then None
    else if i <= STATIC_LEN then Some(statics[i - 1])
    else if i - STATIC_LEN <= |p.table| then Some(p.table[i - STATIC_LEN - 1])
    else None
  }

  function Text(code: Huffman.Code, s: OutStr): Option<seq<byte>>
    requires |code| == 257
  {
    match s
    case Plain(t) => Some(t)
    case Huff(x) => HuffmanDecode.Decoded(code, x)
  }

  function NameText(std: Standard, p: Peer, name: Name): Option<seq<byte>>
    requires |std.huffman| == 257 && |std.statics| == STATIC_LEN
  {
    match name
    case ByText(s) => Text(std.huffman, s)
    case ByIndex(i) =>
      match Lookup(std.statics, p, i)
      case Some(h) => Some(h.name)
      case None => None
  }

  /** The header a field stands for, if any, and the table after it. */
  function Apply(std: Standard, p: Peer, f: Field): Option<(Peer, Option<Header>)>
    requires |std.huffman| == 257 && |std.statics| == STATIC_LEN
  {
    match f
    case Indexed(i) => (
      match Lookup(std.statics, p, i)
      case Some(h) => Some((p, Some(h)))
      case None => None
    )
    case Literal(indexing, name, value) => (
      match (NameText(std, p, name), Text(std.huffman, value))
      case (Some(n), Some(v)) =>
        var h := Header(n, v);
        Some((if indexing then Insert(p, h) else p, Some(h)))
      case _ => None
    )
    case SizeUpdate(size) =>
      if size <= TABLE_SIZE then Some((Peer(Evict(p.table, size), size), None)) else None
  }

  function Cons(h: Option<Header>, rest: seq<Header>): seq<Header> {
    match h
    case Some(x) => [x] + rest
    case None => rest
  }

  /** A whole header block: the header list in order, and the table after it. */
  function DecodeBlock(std: Standard, p: Peer, buf: seq<byte>): Option<(Peer, seq<Header>)>
    requires |std.huffman| == 257 && |std.statics| == STATIC_LEN
    decreases |buf|
  {
    if buf == [] then Some((p, []))
    else
      match ParseField(std.maxInt, buf)
      case None => None
      case Some((f, n)) =>
        match Apply(std, p, f)
        case None => None
        case Some((p', h)) =>
          match DecodeBlock(std, p', buf[n..])
          case None => None
          case Some((p'', rest)) => Some((p'', Cons(h, rest)))
  }
}
