/**
 The server's header decoder (pajamax/src/hpack_decoder.rs). It keeps no header text: its dynamic
 table never evicts and remembers, of a path, only an index into a cache the caller owns.
*/
module HpackDecoder {
  import opened Wrappers
  import opened Bits
  import opened HpackInt
  import opened HpackReference
  import Huffman
  import HuffmanDecode

  datatype GrpcEncoding = Identity | Gzip | Deflate | Zstd

  datatype PathKind = Cached(index: nat) | PlainPath(path: seq<byte>)

  datatype HeaderResult = HeaderResult(path: PathKind, encoding: GrpcEncoding)

  /** An entry of the dynamic table. */
  datatype Entry = Entry(path: Option<nat>, encoding: Option<GrpcEncoding>)

  /** The state of a decoder between blocks; the newest entry of the table is last. */
  datatype State = State(
    next: nat,
    dynamic: seq<Entry>,
    huffmanPaths: map<seq<byte>, nat>,
    plainPaths: map<seq<byte>, nat>)

  const INITIAL: State := State(0, [], map[], map[])

  /** A decoder inside a block: what it has found so far. */
  datatype Scan = Scan(st: State, path: Option<PathKind>, encoding: GrpcEncoding)

  datatype HeaderMatch = PathMatch(value: OutStr) | EncodingMatch(value: OutStr) | NoMatch

  // ---------------------------------------------------------------- specification

  function StringResult(buf: seq<byte>): (r: Result<(OutStr, nat)>)
    ensures r.Ok? ==> 1 <= r.value.1 <= |buf|
  {
    var (len, adv) :- IntResult(buf, 7);
    if len > |buf| - adv then Err(InvalidHpack)
    else
      var text := buf[adv..adv + len];
      Ok((if buf[0] >= 128 then Huff(text) else Plain(text), adv + len))
  }

  /** The strings of a literal, behind its index. */
  function LiteralStrings(buf: seq<byte>, indexing: bool, i: nat, adv: nat): (r: Result<(Field, nat)>)
    requires 1 <= adv <= |buf|
    ensures r.Ok? ==> 1 <= r.value.1 <= |buf|
  {
    if i == 0 then
      var (name, nameAdv) :- StringResult(buf[adv..]);
      var (value, valueAdv) :- StringResult(buf[adv + nameAdv..]);
      Ok((Literal(indexing, ByText(name), value), adv + nameAdv + valueAdv))
    else
      var (value, valueAdv) :- StringResult(buf[adv..]);
      Ok((Literal(indexing, ByIndex(i), value), adv + valueAdv))
  }

  function LiteralResult(buf: seq<byte>, indexing: bool): (r: Result<(Field, nat)>)
    ensures r.Ok? ==> 1 <= r.value.1 <= |buf|
  {
    var (i, adv) :- IntResult(buf, if indexing then 6 else 4);
    LiteralStrings(buf, indexing, i, adv)
  }

  /** The field at the start of a block. A size update is read with a prefix of seven bits. */
  function FieldResult(buf: seq<byte>): (r: Result<(Field, nat)>)
    requires buf != []
    ensures r.Ok? ==> 1 <= r.value.1 <= |buf|
  {
    if buf[0] >= 128 then
      var (i, adv) :- IntResult(buf, 7);
      Ok((Indexed(i), adv))
    else if buf[0] >= 64 then LiteralResult(buf, true)
    else if buf[0] >= 32 then
      var (v, adv) :- IntResult(buf, 7);
      Ok((SizeUpdate(v), adv))
    else LiteralResult(buf, false)
  }

  /** Comparing a name on the wire with a known one: a Huffman name by encoding the known one. */
  function EqStr(code: Huffman.Code, s: OutStr, known: seq<byte>): bool
    requires |code| == 257
  {
    match s
    case Plain(out) => out == known
    case Huff(out) => |out| <= |known| && out == Huffman.Encoded(code, known)
  }

  /**
   Comparing by encoding agrees with comparing by decoding exactly where the Huffman form is no
   longer than the name itself.
  */
  lemma EqStrIffText(code: Huffman.Code, s: OutStr, known: seq<byte>)
    requires Huffman.ValidCode(code)
    ensures EqStr(code, s, known) <==>
            Text(code, s) == Some(known) && (s.Plain? || |s.s| <= |known|)
  {
    if s.Huff? {
      HuffmanDecode.DecodeIffEncode(code, s.s, known);
    }
  }

  /** "gzip", "deflate", "zstd" */
  const GZIP: seq<byte> := [103, 122, 105, 112]
  const DEFLATE: seq<byte> := [100, 101, 102, 108, 97, 116, 101]
  const ZSTD: seq<byte> := [122, 115, 116, 100]

  function EncodingOf(v: seq<byte>): Option<GrpcEncoding> {
    if v == GZIP then Some(Gzip)
    else if v == DEFLATE then Some(Deflate)
    else if v == ZSTD then Some(Zstd)
    else None
  }

  function ToEncoding(code: Huffman.Code, s: OutStr): Option<GrpcEncoding>
    requires |code| == 257
  {
    match Text(code, s)
    case Some(v) => EncodingOf(v)
    case None => None
  }

  function Classify(i: nat, dynamic: seq<Entry>, value: OutStr): Result<HeaderMatch> {
    if i <= STATIC_LEN then
      Ok(if i == 4 || i == 5 then PathMatch(value) else NoMatch)
    else if i - STATIC_LEN > |dynamic| then Panic
    else
      var e := dynamic[STATIC_LEN + |dynamic| - i];
      Ok(if e.path.Some? then PathMatch(value)
         else if e.encoding.Some? then EncodingMatch(value)
         else NoMatch)
  }

  function Match(code: Huffman.Code, dynamic: seq<Entry>, name: Name, value: OutStr): Result<HeaderMatch>
    requires |code| == 257
  {
    match name
    case ByIndex(i) => Classify(i, dynamic, value)
    case ByText(text) =>
      Ok(if EqStr(code, text, PATH) then PathMatch(value)
         else if EqStr(code, text, GRPC_ENCODING) then EncodingMatch(value)
         else NoMatch)
  }

  function Push(st: State, e: Entry): State {
    st.(dynamic := st.dynamic + [e])
  }

  function Found(scan: Scan, e: Option<GrpcEncoding>): Scan {
    match e
    case Some(enc) => scan.(encoding := enc)
    case None => scan
  }

  /** A literal that enters the dynamic table: a path in it always takes a fresh cache index. */
  function ApplyIndexing(code: Huffman.Code, scan: Scan, m: HeaderMatch): Result<Scan>
    requires |code| == 257
  {
    var st := scan.st;
    match m
    case PathMatch(value) => (
      match Text(code, value)
      case Some(text) =>
        Ok(scan.(st := Push(st, Entry(Some(st.next), None)).(next := st.next + 1), path := Some(PlainPath(text))))
      case None => Err(InvalidHuffman)
    )
    case EncodingMatch(value) =>
      var e := ToEncoding(code, value);
      Ok(Found(scan.(st := Push(st, Entry(None, e))), e))
    case NoMatch => Ok(scan.(st := Push(st, Entry(None, None))))
  }

  /** Any other literal: a path already seen in this wire form has its cache index. */
  function ApplyPlain(code: Huffman.Code, scan: Scan, m: HeaderMatch): Result<Scan>
    requires |code| == 257
  {
    var st := scan.st;
    match m
    case PathMatch(Plain(p)) =>
      if p in st.plainPaths then Ok(scan.(path := Some(Cached(st.plainPaths[p]))))
      else
        Ok(scan.(st := st.(next := st.next + 1, plainPaths := st.plainPaths[p := st.next]),
                 path := Some(PlainPath(p))))
    case PathMatch(Huff(x)) =>
      if x in st.huffmanPaths then Ok(scan.(path := Some(Cached(st.huffmanPaths[x]))))
      else (
        match HuffmanDecode.Decoded(code, x)
        case Some(p) =>
          Ok(scan.(st := st.(next := st.next + 1, huffmanPaths := st.huffmanPaths[x := st.next]),
                   path := Some(PlainPath(p))))
        case None => Err(InvalidHuffman)
      )
    case EncodingMatch(value) => Ok(Found(scan, ToEncoding(code, value)))
    case NoMatch => Ok(scan)
  }

  function ApplyField(code: Huffman.Code, scan: Scan, f: Field): Result<Scan>
    requires |code| == 257
  {
    var dynamic := scan.st.dynamic;
    match f
    case Indexed(i) =>
      if i <= STATIC_LEN then Ok(scan)
      else if i > STATIC_LEN + |dynamic| then Err(InvalidHpack)
      else
        var e := dynamic[STATIC_LEN + |dynamic| - i];
        var scan' := if e.path.Some? then scan.(path := Some(Cached(e.path.value))) else scan;
        Ok(Found(scan', e.encoding))
    case Literal(indexing, name, value) =>
      var m :- Match(code, dynamic, name, value);
      if indexing then ApplyIndexing(code, scan, m) else ApplyPlain(code, scan, m)
    case SizeUpdate(_) => Ok(scan)
  }

  /** One field of a block: the scan after it, and its length. */
  function StepResult(code: Huffman.Code, scan: Scan, buf: seq<byte>): (r: Result<(Scan, nat)>)
    requires |code| == 257 && buf != []
    ensures r.Ok? ==> 1 <= r.value.1 <= |buf|
  {
    var (f, adv) :- FieldResult(buf);
    var scan' :- ApplyField(code, scan, f);
    Ok((scan', adv))
  }

  function ScanBlock(code: Huffman.Code, scan: Scan, buf: seq<byte>): Result<Scan>
    requires |code| == 257
    decreases |buf|
  {
    if buf == [] then Ok(scan)
    else
      var (scan', adv) :- StepResult(code, scan, buf);
      ScanBlock(code, scan', buf[adv..])
  }

  function Start(st: State): Scan {
    Scan(st, None, Identity)
  }

  /** The state after a whole block and what it says about the request. */
  function FindResult(code: Huffman.Code, st: State, buf: seq<byte>): Result<(State, HeaderResult)>
    requires |code| == 257
  {
    var scan :- ScanBlock(code, Start(st), buf);
    match scan.path
    case None => Err(NoPathSet)
    case Some(path) => Ok((scan.st, HeaderResult(path, scan.encoding)))
  }

  // ---------------------------------------------------------------- the code

  method DecodeString(buf: seq<byte>) returns (r: Result<(OutStr, nat)>)
    ensures r == StringResult(buf)
  {
    if buf == [] {
      return Err(InvalidHpack);
    }
    var huff := buf[0] >= 128;
    var n := DecodeInt(buf, 7);
    if !n.Ok? {
      return n.PropagateFailure();
    }
    var (len, adv) := n.value;
    if len > |buf| - adv {
      return Err(InvalidHpack);
    }
    var end := adv + len;
    var msg := buf[adv..end];
    return Ok((if huff then Huff(msg) else Plain(msg), end));
  }

  method EqualsStr(code: Huffman.Code, s: OutStr, known: seq<byte>) returns (r: bool)
    requires Huffman.ValidLengths(code)
    ensures r == EqStr(code, s, known)
  {
    match s
    case Plain(out) =>
      r := out == known;
    case Huff(out) =>
      if |out| > |known| {
        return false;
      }
      var huffbuf := Huffman.Encode(code, known, []);
      r := out == huffbuf;
  }

  /** The three names are these texts. */
  lemma EncodingTexts()
    ensures GZIP == Ascii("gzip") && DEFLATE == Ascii("deflate") && ZSTD == Ascii("zstd")
    ensures Ascii("gzip") != Ascii("deflate") && Ascii("gzip") != Ascii("zstd") && Ascii("deflate") != Ascii("zstd")
  {
    assert GZIP[0] == 'g' as int && ZSTD[0] == 'z' as int && |DEFLATE| == 7;
  }

  /** What text stands for an encoding; there is no other. */
  ghost predicate IsNameOf(r: Option<GrpcEncoding>, text: Option<seq<byte>>) {
    && (r == Some(Gzip) <==> text == Some(Ascii("gzip")))
    && (r == Some(Deflate) <==> text == Some(Ascii("deflate")))
    && (r == Some(Zstd) <==> text == Some(Ascii("zstd")))
    && r != Some(Identity)
  }

  lemma EncodingIsNamed(code: Huffman.Code, s: OutStr)
    requires |code| == 257
    ensures IsNameOf(ToEncoding(code, s), Text(code, s))
  {
    EncodingTexts();
  }

  method StrToEncoding(code: Huffman.Code, s: OutStr) returns (r: Option<GrpcEncoding>)
    requires Huffman.ValidLengths(code)
    ensures r == ToEncoding(code, s) && IsNameOf(r, Text(code, s))
  {
    EncodingIsNamed(code, s);
    match s
    case Plain(out) =>
      r := EncodingOf(out);
    case Huff(out) =>
      var plain := HuffmanDecode.Decode(code, out);
      r := if plain.Ok? then EncodingOf(plain.value) else None;
  }

  function LiteralMatch(code: Huffman.Code, buf: seq<byte>, indexing: bool, dynamic: seq<Entry>)
    : Result<(HeaderMatch, nat)>
    requires |code| == 257
  {
    var (f, adv) :- LiteralResult(buf, indexing);
    var m :- Match(code, dynamic, f.name, f.value);
    Ok((m, adv))
  }

  /** The octets of a literal: its name, as an index or a string, and its value. */
  method ReadStrings(buf: seq<byte>, indexing: bool, tableIdx: nat, indexAdv: nat) returns (r: Result<(Field, nat)>)
    requires 1 <= indexAdv <= |buf|
    ensures r == LiteralStrings(buf, indexing, tableIdx, indexAdv)
  {
    var first := DecodeString(buf[indexAdv..]);
    if !first.Ok? {
      return first.PropagateFailure();
    }
    var (firstStr, firstAdv) := first.value;
    if tableIdx != 0 {
      // The name is indexed, so the string is the value.
      return Ok((Literal(indexing, ByIndex(tableIdx), firstStr), indexAdv + firstAdv));
    }
    var second := DecodeString(buf[indexAdv + firstAdv..]);
    if !second.Ok? {
      return second.PropagateFailure();
    }
    var (secondStr, secondAdv) := second.value;
    return Ok((Literal(indexing, ByText(firstStr), secondStr), indexAdv + firstAdv + secondAdv));
  }

  method ReadLiteral(buf: seq<byte>, indexing: bool) returns (r: Result<(Field, nat)>)
    ensures r == LiteralResult(buf, indexing)
  {
    var n := DecodeInt(buf, if indexing then 6 else 4);
    if !n.Ok? {
      return n.PropagateFailure();
    }
    var (tableIdx, indexAdv) := n.value;
    r := ReadStrings(buf, indexing, tableIdx, indexAdv);
  }

  method MatchLiteral(code: Huffman.Code, dynamic: seq<Entry>, name: Name, value: OutStr)
    returns (r: Result<HeaderMatch>)
    requires Huffman.ValidLengths(code)
    ensures r == Match(code, dynamic, name, value)
  {
    match name
    case ByIndex(i) =>
      r := Classify(i, dynamic, value);
    case ByText(text) =>
      var isPath := EqualsStr(code, text, PATH);
      if isPath {
        return Ok(PathMatch(value));
      }
      var isEncoding := EqualsStr(code, text, GRPC_ENCODING);
      r := Ok(if isEncoding then EncodingMatch(value) else NoMatch);
  }

  method DecodeLiteralHeader(code: Huffman.Code, buf: seq<byte>, indexing: bool, dynamic: seq<Entry>)
    returns (r: Result<(HeaderMatch, nat)>)
    requires Huffman.ValidLengths(code)
    ensures r == LiteralMatch(code, buf, indexing, dynamic)
  {
    var field := ReadLiteral(buf, indexing);
    if !field.Ok? {
      return field.PropagateFailure();
    }
    var (f, adv) := field.value;
    var m := MatchLiteral(code, dynamic, f.name, f.value);
    return if m.Ok? then Ok((m.value, adv)) else m.PropagateFailure();
  }

  /** A literal: its field is read, classified, and taken. */
  lemma LiteralStep(code: Huffman.Code, before: Scan, buf: seq<byte>, indexing: bool)
    requires |code| == 257 && buf != []
    requires if indexing then 64 <= buf[0] < 128 else buf[0] < 32
    ensures StepResult(code, before, buf) ==
            match LiteralMatch(code, buf, indexing, before.st.dynamic)
            case Ok((m, adv)) => (
              match if indexing then ApplyIndexing(code, before, m) else ApplyPlain(code, before, m)
              case Ok(after) => Ok((after, adv))
              case Err(e) => Err(e)
              case Panic => Panic
            )
            case Err(e) => Err(e)
            case Panic => Panic
  {}

  /** A call that read the field at the start of buf and left `after`. */
  ghost predicate Steps(code: Huffman.Code, before: Scan, buf: seq<byte>, r: Result<nat>, after: Scan)
    requires |code| == 257 && buf != []
  {
    var spec := StepResult(code, before, buf);
    if spec.Ok? then r == Ok(spec.value.1) && after == spec.value.0
    else r == spec.PropagateFailure()
  }

  /** A call that did to a scan what `spec` says. */
  ghost predicate Takes(spec: Result<Scan>, r: Result<()>, after: Scan) {
    if spec.Ok? then r == Ok(()) && after == spec.value else r == spec.PropagateFailure()
  }

  class Decoder {
    var nextCacheIndex: nat
    var dynamicTable: seq<Entry>
    var huffmanPaths: map<seq<byte>, nat>
    var plainPaths: map<seq<byte>, nat>

    constructor ()
      ensures Abs() == INITIAL
    {
      nextCacheIndex := 0;
      dynamicTable := [];
      huffmanPaths := map[];
      plainPaths := map[];
    }

    function Abs(): State
      reads this
    {
      State(nextCacheIndex, dynamicTable, huffmanPaths, plainPaths)
    }

    method PushDynamicEntry(path: Option<nat>, encoding: Option<GrpcEncoding>)
      modifies this`dynamicTable
      ensures Abs() == Push(old(Abs()), Entry(path, encoding))
    {
      dynamicTable := dynamicTable + [Entry(path, encoding)];
    }

    method OnIndexed(code: Huffman.Code, buf: seq<byte>, path: Option<PathKind>, encoding: GrpcEncoding)
      returns (r: Result<nat>, path': Option<PathKind>, encoding': GrpcEncoding)
      requires Huffman.ValidLengths(code) && buf != [] && buf[0] >= 128
      ensures Steps(code, Scan(old(Abs()), path, encoding), buf, r, Scan(Abs(), path', encoding'))
    {
      path', encoding' := path, encoding;
      var n := DecodeInt(buf, 7);
      if !n.Ok? {
        r := n.PropagateFailure();
        return;
      }
      var (index, adv) := n.value;
      if index > STATIC_LEN {
        if index > STATIC_LEN + |dynamicTable| {
          r := Err(InvalidHpack);
          return;
        }
        var entry := dynamicTable[STATIC_LEN + |dynamicTable| - index];
        if entry.path.Some? {
          path' := Some(Cached(entry.path.value));
        }
        if entry.encoding.Some? {
          encoding' := entry.encoding.value;
        }
      }
      r := Ok(adv);
    }

    method TakeIndexing(code: Huffman.Code, m: HeaderMatch, path: Option<PathKind>, encoding: GrpcEncoding)
      returns (r: Result<()>, path': Option<PathKind>, encoding': GrpcEncoding)
      requires Huffman.ValidLengths(code)
      modifies this
      ensures Takes(ApplyIndexing(code, Scan(old(Abs()), path, encoding), m), r, Scan(Abs(), path', encoding'))
    {
      r, path', encoding' := Ok(()), path, encoding;
      match m
      case PathMatch(value) =>
        var text: seq<byte>;
        match value {
          case Plain(p) =>
            text := p;
          case Huff(x) =>
            var decoded := HuffmanDecode.Decode(code, x);
            if !decoded.Ok? {
              r := decoded.PropagateFailure();
              return;
            }
            text := decoded.value;
        }
        path' := Some(PlainPath(text));
        // The caller adds the route of this path to its cache.
        nextCacheIndex := nextCacheIndex + 1;
        PushDynamicEntry(Some(nextCacheIndex - 1), None);
      case EncodingMatch(value) =>
        var enc := StrToEncoding(code, value);
        if enc.Some? {
          encoding' := enc.value;
        }
        PushDynamicEntry(None, enc);
      case NoMatch =>
        PushDynamicEntry(None, None);
    }

    method TakePlain(code: Huffman.Code, m: HeaderMatch, path: Option<PathKind>, encoding: GrpcEncoding)
      returns (r: Result<()>, path': Option<PathKind>, encoding': GrpcEncoding)
      requires Huffman.ValidLengths(code)
      modifies this
      ensures Takes(ApplyPlain(code, Scan(old(Abs()), path, encoding), m), r, Scan(Abs(), path', encoding'))
    {
      r, path', encoding' := Ok(()), path, encoding;
      match m
      case PathMatch(Plain(p)) =>
        if p in plainPaths {
          path' := Some(Cached(plainPaths[p]));
        } else {
          plainPaths := plainPaths[p := nextCacheIndex];
          nextCacheIndex := nextCacheIndex + 1;
          path' := Some(PlainPath(p));
        }
      case PathMatch(Huff(x)) =>
        if x in huffmanPaths {
          path' := Some(Cached(huffmanPaths[x]));
        } else {
          huffmanPaths := huffmanPaths[x := nextCacheIndex];
          nextCacheIndex := nextCacheIndex + 1;
          var decoded := HuffmanDecode.Decode(code, x);
          if !decoded.Ok? {
            r := decoded.PropagateFailure();
            return;
          }
          path' := Some(PlainPath(decoded.value));
        }
      case EncodingMatch(value) =>
        var enc := StrToEncoding(code, value);
        if enc.Some? {
          encoding' := enc.value;
        }
      case NoMatch =>
    }

    method OnLiteral(code: Huffman.Code, buf: seq<byte>, indexing: bool, path: Option<PathKind>, encoding: GrpcEncoding)
      returns (r: Result<nat>, path': Option<PathKind>, encoding': GrpcEncoding)
      requires Huffman.ValidLengths(code) && buf != []
      requires if indexing then 64 <= buf[0] < 128 else buf[0] < 32
      modifies this
      ensures Steps(code, Scan(old(Abs()), path, encoding), buf, r, Scan(Abs(), path', encoding'))
    {
      path', encoding' := path, encoding;
      LiteralStep(code, Scan(Abs(), path, encoding), buf, indexing);
      var h := DecodeLiteralHeader(code, buf, indexing, dynamicTable);
      if !h.Ok? {
        r := h.PropagateFailure();
        return;
      }
      var done: Result<()>;
      if indexing {
        done, path', encoding' := TakeIndexing(code, h.value.0, path, encoding);
      } else {
        done, path', encoding' := TakePlain(code, h.value.0, path, encoding);
      }
      r := if done.Ok? then Ok(h.value.1) else done.PropagateFailure();
    }

    /**
     Reads a whole header block. After an error the table may hold part of it, as in the source,
     where every error closes the connection.
    */
    method FindPathAndEncoding(code: Huffman.Code, block: seq<byte>) returns (r: Result<HeaderResult>)
      requires Huffman.ValidLengths(code)
      modifies this
      ensures var spec := FindResult(code, old(Abs()), block);
              if spec.Ok? then r == Ok(spec.value.1) && Abs() == spec.value.0
              else r == spec.PropagateFailure()
    {
      var buf := block;
      var findPath: Option<PathKind> := None;
      var encoding := Identity;
      while buf != []
        invariant ScanBlock(code, Start(old(Abs())), block) == ScanBlock(code, Scan(Abs(), findPath, encoding), buf)
        decreases |buf|
      {
        var adv: Result<nat>;
        if buf[0] >= 128 {
          adv, findPath, encoding := OnIndexed(code, buf, findPath, encoding);
        } else if buf[0] >= 64 {
          adv, findPath, encoding := OnLiteral(code, buf, true, findPath, encoding);
        } else if buf[0] >= 32 {
          var n := DecodeInt(buf, 7);
          adv := if n.Ok? then Ok(n.value.1) else n.PropagateFailure();
        } else {
          adv, findPath, encoding := OnLiteral(code, buf, false, findPath, encoding);
        }
        if !adv.Ok? {
          return adv.PropagateFailure();
        }
        buf := buf[adv.value..];
      }
      match findPath
      case None => return Err(NoPathSet);
      case Some(path) => return Ok(HeaderResult(path, encoding));
    }
  }
}
