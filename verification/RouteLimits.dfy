/**
 Where routing by cache parts from the standard (pajamax/src/hpack_decoder.rs): for each shortcut the
 exact condition under which it is right, and an input on which it is not.
*/
module RouteLimits {
  import opened Wrappers
  import opened Bits
  import opened HpackInt
  import opened HpackReference
  import opened HpackFields
  import opened HpackDecoder
  import opened RouteCache
  import Huffman

  // ---------------------------------------------------------------- fields on the wire

  /** The server on the fields of a block. */
  function ScanFields(code: Huffman.Code, scan: Scan, fs: seq<Field>): Result<Scan>
    requires |code| == 257
    decreases |fs|
  {
    if fs == [] then Ok(scan)
    else
      var scan' :- ApplyField(code, scan, fs[0]);
      ScanFields(code, scan', fs[1..])
  }

  /** The octets of written fields are scanned as these fields. */
  lemma {:induction false} WrittenScans(code: Huffman.Code, scan: Scan, fs: seq<Field>)
    requires |code| == 257 && AllWritable(fs) && AllShort(fs)
    ensures ScanBlock(code, scan, BlockBytes(fs)) == ScanFields(code, scan, fs)
    decreases |fs|
  {
    if fs != [] {
      var rest := BlockBytes(fs[1..]);
      FieldReadsBack(MAX_BYTES, fs[0], rest);
      FieldAgrees(MAX_BYTES, FieldBytes(fs[0]) + rest);
      assert (FieldBytes(fs[0]) + rest)[|FieldBytes(fs[0])|..] == rest;
      match ApplyField(code, scan, fs[0])
      case Ok(scan') => WrittenScans(code, scan', fs[1..]);
      case _ =>
    }
  }

  // ---------------------------------------------------------------- when decoder and cache stay in lockstep

  predicate IsPathLiteral(code: Huffman.Code, scan: Scan, f: Field)
    requires |code| == 257
  {
    f.Literal? &&
    var m := Match(code, scan.st.dynamic, f.name, f.value);
    m.Ok? && m.value.PathMatch?
  }

  predicate InMaps(st: State, value: OutStr) {
    match value
    case Plain(p) => p in st.plainPaths
    case Huff(x) => x in st.huffmanPaths
  }

  /** A path that takes a new cache index: with indexing, or in a wire form not seen before. */
  predicate IsFresh(code: Huffman.Code, scan: Scan, f: Field)
    requires |code| == 257
  {
    IsPathLiteral(code, scan, f) && (f.indexing || !InMaps(scan.st, f.value))
  }

  /** A path by cache index: an entry of the table, or a wire form seen before. */
  predicate IsKnown(code: Huffman.Code, scan: Scan, f: Field)
    requires |code| == 257
  {
    var dynamic := scan.st.dynamic;
    match f
    case Indexed(i) => STATIC_LEN < i <= STATIC_LEN + |dynamic| && dynamic[STATIC_LEN + |dynamic| - i].path.Some?
    case _ => IsPathLiteral(code, scan, f) && !IsFresh(code, scan, f)
  }

  /** How many fields of a block take a new index, and whether the last path does. */
  function FreshPaths(code: Huffman.Code, scan: Scan, buf: seq<byte>, lastFresh: bool): (nat, bool)
    requires |code| == 257
    decreases |buf|
  {
    if buf == [] then (0, lastFresh)
    else
      match FieldResult(buf)
      case Ok((f, adv)) => (
        var last := IsFresh(code, scan, f) || (lastFresh && !IsKnown(code, scan, f));
        match ApplyField(code, scan, f)
        case Ok(scan') =>
          var (n, end) := FreshPaths(code, scan', buf[adv..], last);
          ((if IsFresh(code, scan, f) then 1 else 0) + n, end)
        case _ => (0, last)
      )
      case _ => (0, lastFresh)
  }

  ghost predicate EndsFresh(scan: Scan) {
    scan.path.Some? && scan.path.value.PlainPath?
  }

  lemma FreshField(code: Huffman.Code, scan: Scan, f: Field)
    requires |code| == 257 && ApplyField(code, scan, f).Ok?
    ensures var scan' := ApplyField(code, scan, f).value;
            && scan'.st.next == scan.st.next + (if IsFresh(code, scan, f) then 1 else 0)
            && (EndsFresh(scan') <==> IsFresh(code, scan, f) || (EndsFresh(scan) && !IsKnown(code, scan, f)))
  {}

  lemma {:induction false} FreshBlock(code: Huffman.Code, scan: Scan, buf: seq<byte>)
    requires |code| == 257 && ScanBlock(code, scan, buf).Ok?
    ensures var scan' := ScanBlock(code, scan, buf).value;
            var (n, last) := FreshPaths(code, scan, buf, EndsFresh(scan));
            scan'.st.next == scan.st.next + n && EndsFresh(scan') == last
    decreases |buf|
  {
    if buf != [] {
      var (f, adv) := FieldResult(buf).value;
      FreshField(code, scan, f);
      FreshBlock(code, ApplyField(code, scan, f).value, buf[adv..]);
    }
  }

  /**
   After a request that is routed, decoder and cache are in lockstep if and only if its block took
   one new index and its last path was the one, or none and its last path was cached.
  */
  lemma LockstepExact(code: Huffman.Code, services: seq<Service>, st: State, cache: seq<Route>, block: seq<byte>)
    requires |code| == 257 && st.next == |cache|
    requires ResolveResult(code, services, st, cache, block).Ok?
    ensures var r := ResolveResult(code, services, st, cache, block).value;
            var (n, last) := FreshPaths(code, Start(st), block, false);
            r.st.next == |r.cache| <==> n == if last then 1 else 0
  {
    FreshBlock(code, Start(st), block);
  }

  // ---------------------------------------------------------------- two paths in one block

  /** A short plain string literal. */
  lemma ShortString(text: seq<byte>, rest: seq<byte>)
    requires |text| < 127
    ensures StringResult([|text|] + text + rest) == Ok((Plain(text), 1 + |text|))
    ensures Str(MAX_BYTES, [|text|] + text + rest) == Some((Plain(text), 1 + |text|))
  {
    var buf := [|text|] + text + rest;
    assert Pow2(7) == 128;
    assert buf[1..1 + |text|] == text;
  }

  /** The octets of a literal with indexing whose name is entry 4 of the static table, `:path`. */
  function PathLiteral(text: seq<byte>): seq<byte>
    requires |text| < 127
  {
    [0x44] + ([|text|] + text)
  }

  lemma ReadPathLiteral(text: seq<byte>, rest: seq<byte>)
    requires |text| < 127
    ensures FieldResult(PathLiteral(text) + rest) == Ok((Literal(true, ByIndex(4), Plain(text)), 2 + |text|))
    ensures ParseField(MAX_BYTES, PathLiteral(text) + rest) ==
            Some((Literal(true, ByIndex(4), Plain(text)), 2 + |text|))
    ensures (PathLiteral(text) + rest)[2 + |text|..] == rest
  {
    var buf := PathLiteral(text) + rest;
    assert Pow2(6) == 64;
    assert buf[1..] == [|text|] + text + rest;
    ShortString(text, rest);
  }

  /** A scan after a plain path literal with indexing. */
  function AfterPath(scan: Scan, text: seq<byte>): Scan {
    var st := scan.st;
    Scan(State(st.next + 1, st.dynamic + [Entry(Some(st.next), None)], st.huffmanPaths, st.plainPaths),
         Some(PlainPath(text)), scan.encoding)
  }

  lemma ApplyPathLiteral(code: Huffman.Code, scan: Scan, text: seq<byte>)
    requires |code| == 257
    ensures ApplyField(code, scan, Literal(true, ByIndex(4), Plain(text))) == Ok(AfterPath(scan, text))
  {
    assert Match(code, scan.st.dynamic, ByIndex(4), Plain(text)) == Ok(PathMatch(Plain(text)));
  }

  lemma ScanPathLiteral(code: Huffman.Code, scan: Scan, text: seq<byte>, rest: seq<byte>)
    requires |code| == 257 && |text| < 127
    ensures ScanBlock(code, scan, PathLiteral(text) + rest) == ScanBlock(code, AfterPath(scan, text), rest)
  {
    var buf := PathLiteral(text) + rest;
    ReadPathLiteral(text, rest);
    ApplyPathLiteral(code, scan, text);
    assert StepResult(code, scan, buf) == Ok((AfterPath(scan, text), 2 + |text|));
  }

  lemma ScanNewestEntry(code: Huffman.Code, st: State)
    requires |code| == 257 && st.dynamic != []
    requires Recent(st.dynamic, 0).path.Some?
    ensures FindResult(code, st, [0xbe]).Ok?
    ensures FindResult(code, st, [0xbe]).value.1.path == Cached(Recent(st.dynamic, 0).path.value)
  {
    assert Pow2(7) == 128;
    assert FieldResult([0xbe]) == Ok((Indexed(62), 1));
    assert [0xbe][1..] == [];
  }

  /**
   Two new paths in one block break the lockstep, from every state that is in it: the decoder
   counts two, the caller caches one, and a later reference to the second entry indexes past the
   cache.
  */
  lemma TwoPathsBreakLockstep(code: Huffman.Code, services: seq<Service>, st: State, cache: seq<Route>, a: seq<byte>,
          b: seq<byte>)
    requires |code| == 257 && |a| < 127 && |b| < 127
    requires st.next == |cache| && RouteOf(services, b).Some?
    ensures var block := PathLiteral(a) + PathLiteral(b);
            var r := ResolveResult(code, services, st, cache, block);
            && r.Ok? && r.value.st.next == |r.value.cache| + 1
            && ResolveResult(code, services, r.value.st, r.value.cache, [0xbe]) == Panic
  {
    var scan1 := AfterPath(Start(st), a);
    var scan2 := AfterPath(scan1, b);
    ScanPathLiteral(code, Start(st), a, PathLiteral(b));
    assert PathLiteral(b) + [] == PathLiteral(b);
    ScanPathLiteral(code, scan1, b, []);
    ScanNewestEntry(code, scan2.st);
  }

  // ---------------------------------------------------------------- long size updates

  lemma StandardReadsLongUpdate(std: Standard, path: seq<byte>)
    requires ValidStandard(std) && std.maxInt == MAX_BYTES && |path| < 67
    ensures DecodeBlock(std, EMPTY, [0x3f, 0x01] + PathLiteral(path)) == Some((Peer([], 32), [Header(PATH, path)]))
  {
    var block := [0x3f, 0x01] + PathLiteral(path);
    var peer, h := Peer([], 32), Header(PATH, path);
    assert ParseField(MAX_BYTES, block) == Some((SizeUpdate(32), 2)) by {
      assert Pow2(5) == 32;
      assert RfcTail(block[1..]) == Some((1, 1));
    }
    assert Apply(std, EMPTY, SizeUpdate(32)) == Some((peer, None));
    var rest := block[2..];
    assert rest == PathLiteral(path) + [];
    ReadPathLiteral(path, []);
    assert Insert(peer, h) == peer by {
      assert [h] + [] == [h] && [h][1..] == [] && [h][..0] == [];
      assert Size([h]) > 32;
    }
    assert Apply(std, peer, Literal(true, ByIndex(4), Plain(path))) == Some((peer, Some(h)));
    assert DecodeBlock(std, peer, rest[2 + |path|..]) == Some((peer, []));
    var hs := Cons(Some(h), []);
    assert hs == [h];
    assert DecodeBlock(std, peer, rest) == Some((peer, hs));
    assert Cons(None, hs) == hs;
  }

  /** What is left of a long update is read as a name that is not there. */
  lemma UpdateRestIsNoField(path: seq<byte>)
    requires |path| < 67
    ensures FieldResult([0x01] + PathLiteral(path)) == Err(InvalidHpack)
  {
    var rest := [0x01] + PathLiteral(path);
    assert rest[1..] == PathLiteral(path);
    assert Pow2(4) == 16 && Pow2(7) == 128;
    assert IntResult(rest, 4) == Ok((1, 1));
    assert IntResult(PathLiteral(path), 7) == Ok((0x44, 1));
    assert StringResult(PathLiteral(path)) == Err(InvalidHpack);
  }

  lemma LongUpdateFails(code: Huffman.Code, scan: Scan, path: seq<byte>)
    requires |code| == 257 && |path| < 67
    ensures ScanBlock(code, scan, [0x3f, 0x01] + PathLiteral(path)) == Err(InvalidHpack)
  {
    var block, rest := [0x3f, 0x01] + PathLiteral(path), [0x01] + PathLiteral(path);
    SizeUpdateOctet(block);
    assert block[1..] == rest;
    UpdateRestIsNoField(path);
    assert ScanBlock(code, scan, rest) == Err(InvalidHpack);
    assert StepResult(code, scan, block) == Ok((scan, 1));
  }

  /**
   A size update of 31 or more breaks the agreement: of a block with an update to 32 and a path,
   the standard reads the path, and the server reports an error in any state.
  */
  lemma LongUpdateIsMisread(std: Standard, st: State, services: seq<Service>, cache: seq<Route>, path: seq<byte>)
    requires ValidStandard(std) && std.maxInt == MAX_BYTES && |path| < 67
    ensures var block := [0x3f, 0x01] + PathLiteral(path);
            && DecodeBlock(std, EMPTY, block) == Some((Peer([], 32), [Header(PATH, path)]))
            && ResolveResult(std.huffman, services, st, cache, block) == Err(InvalidHpack)
  {
    StandardReadsLongUpdate(std, path);
    LongUpdateFails(std.huffman, Start(st), path);
  }

  // ---------------------------------------------------------------- blocks that panic

  /** The bits of the first integer of a field, by its first octet. */
  function Prefix(first: byte): nat {
    if first >= 128 then 7 else if first >= 64 then 6 else if first >= 32 then 7 else 4
  }

  /** The octets end inside the length of a string of a literal, behind its index i in n octets. */
  predicate StringsAreCut(buf: seq<byte>, i: nat, n: nat)
    requires n <= |buf|
  {
    IsCut(buf[n..], 7) ||
    match StringResult(buf[n..])
    case Ok((_, m)) => i == 0 && IsCut(buf[n + m..], 7)
    case _ => false
  }

  /** The octets end inside an integer of their first field: an index, or the length of a string. */
  predicate FieldIsCut(buf: seq<byte>)
    requires buf != []
  {
    IsCut(buf, Prefix(buf[0])) ||
    match IntResult(buf, Prefix(buf[0]))
    case Ok((i, n)) => (64 <= buf[0] < 128 || buf[0] < 32) && StringsAreCut(buf, i, n)
    case _ => false
  }

  lemma StringPanicsExact(buf: seq<byte>)
    ensures StringResult(buf) == Panic <==> IsCut(buf, 7)
  {
    IntPanicsExact(buf, 7);
  }

  lemma StringsPanicExact(buf: seq<byte>, indexing: bool, i: nat, n: nat)
    requires 1 <= n <= |buf|
    ensures LiteralStrings(buf, indexing, i, n) == Panic <==> StringsAreCut(buf, i, n)
  {
    StringPanicsExact(buf[n..]);
    match StringResult(buf[n..])
    case Ok((_, m)) => StringPanicsExact(buf[n + m..]);
    case _ =>
  }

  lemma FieldPanicsExact(buf: seq<byte>)
    requires buf != []
    ensures FieldResult(buf) == Panic <==> FieldIsCut(buf)
  {
    IntPanicsExact(buf, Prefix(buf[0]));
    match IntResult(buf, Prefix(buf[0]))
    case Ok((i, n)) => StringsPanicExact(buf, buf[0] >= 64, i, n);
    case _ =>
  }

  /** A literal takes its name from an entry that the table does not have. */
  predicate NameIsMissing(dynamic: seq<Entry>, f: Field) {
    f.Literal? && f.name.ByIndex? && f.name.i > STATIC_LEN + |dynamic|
  }

  lemma NamePanicsExact(code: Huffman.Code, scan: Scan, f: Field)
    requires |code| == 257
    ensures ApplyField(code, scan, f) == Panic <==> NameIsMissing(scan.st.dynamic, f)
  {}

  /** Field after field, one is cut off or has a name that is missing. */
  predicate BlockPanics(code: Huffman.Code, scan: Scan, buf: seq<byte>)
    requires |code| == 257
    decreases |buf|
  {
    buf != [] && (
      FieldIsCut(buf) ||
      match FieldResult(buf)
      case Ok((f, n)) => (
        NameIsMissing(scan.st.dynamic, f) ||
        match ApplyField(code, scan, f)
        case Ok(scan') => BlockPanics(code, scan', buf[n..])
        case _ => false
      )
      case _ => false)
  }

  lemma {:induction false} BlockPanicsExact(code: Huffman.Code, scan: Scan, buf: seq<byte>)
    requires |code| == 257
    ensures ScanBlock(code, scan, buf) == Panic <==> BlockPanics(code, scan, buf)
    decreases |buf|
  {
    if buf != [] {
      FieldPanicsExact(buf);
      match FieldResult(buf)
      case Ok((f, n)) =>
        NamePanicsExact(code, scan, f);
        match ApplyField(code, scan, f) {
          case Ok(scan') => BlockPanicsExact(code, scan', buf[n..]);
          case _ =>
        }
      case _ =>
    }
  }

  /** A request panics if and only if its block does, or its path has an index past the cache. */
  lemma RequestPanicsExact(code: Huffman.Code, services: seq<Service>, st: State, cache: seq<Route>, block: seq<byte>)
    requires |code| == 257
    ensures ResolveResult(code, services, st, cache, block) == Panic <==>
            || BlockPanics(code, Start(st), block)
            || match ScanBlock(code, Start(st), block)
               case Ok(scan) => scan.path.Some? && scan.path.value.Cached? && scan.path.value.index >= |cache|
               case _ => false
  {
    BlockPanicsExact(code, Start(st), block);
  }

  /** One octet is enough: an index that is cut off. */
  lemma CutIndexPanics(code: Huffman.Code, services: seq<Service>, st: State, cache: seq<Route>)
    requires |code| == 257
    ensures ResolveResult(code, services, st, cache, [0xff]) == Panic
  {
    assert Pow2(7) == 128;
    assert IsCut([0xff], 7);
    RequestPanicsExact(code, services, st, cache, [0xff]);
  }

  /** So is the name of the entry behind the last, which the reference decoder refuses. */
  lemma MissingNamePanics(std: Standard, services: seq<Service>, st: State, cache: seq<Route>, p: Peer)
    requires |std.huffman| == 257 && |std.statics| == STATIC_LEN && std.maxInt == MAX_BYTES
    requires |p.table| <= |st.dynamic| < LIMIT - STATIC_LEN - 1
    ensures var block := BlockBytes([Literal(false, ByIndex(STATIC_LEN + 1 + |st.dynamic|), Plain([]))]);
            && ResolveResult(std.huffman, services, st, cache, block) == Panic
            && DecodeBlock(std, p, block) == None
  {
    var fs := [Literal(false, ByIndex(STATIC_LEN + 1 + |st.dynamic|), Plain([]))];
    WrittenScans(std.huffman, Start(st), fs);
    assert ApplyField(std.huffman, Start(st), fs[0]) == Panic;
    BlockReadsBack(std, p, fs);
  }

  // ---------------------------------------------------------------- paths of the static table

  /** An indexed field is seen as the path it is if and only if it is not of the static table. */
  lemma IndexedPathExact(std: Standard, services: seq<Service>, known: seq<Route>, scan: Scan, p: Peer, i: nat,
          h: Header)
    requires ValidStandard(std) && TableSim(services, known, scan.st.dynamic, p.table, false)
    requires Lookup(std.statics, p, i) == Some(h) && scan.path.None?
    ensures var r := ApplyField(std.huffman, scan, Indexed(i));
            r.Ok? && ((r.value.path.Some? <==> h.name == PATH) <==> i != 4 && i != 5)
  {
    if i > STATIC_LEN {
      var e, _ := LookupAgrees(std, services, known, scan.st.dynamic, p, i, false);
    }
  }

  /** Of the block with `:path /` by index, the standard reads the path and the server none. */
  lemma StaticPathIsMissed(std: Standard, p: Peer, services: seq<Service>, st: State, cache: seq<Route>)
    requires ValidStandard(std) && std.maxInt == MAX_BYTES
    ensures DecodeBlock(std, p, [0x84]) == Some((p, [Header(PATH, SLASH)]))
    ensures ResolveResult(std.huffman, services, st, cache, [0x84]) == Err(NoPathSet)
  {
    var fs := [Indexed(4)];
    assert BlockBytes(fs) == [0x84] by {
      assert Pow2(7) == 128;
      assert EncInt(4, 7, 0x80) == [0x84];
    }
    BlockReadsBack(std, p, fs);
    OneField(std, p, Indexed(4), p, Header(PATH, SLASH));
    WrittenScans(std.huffman, Start(st), fs);
    assert fs[1..] == [];
  }

  lemma OneField(std: Standard, p: Peer, f: Field, p': Peer, h: Header)
    requires |std.huffman| == 257 && |std.statics| == STATIC_LEN
    requires Apply(std, p, f) == Some((p', Some(h)))
    ensures ApplyAll(std, p, [f]) == Some((p', [h]))
  {
    assert [f][1..] == [];
    assert Cons(Some(h), []) == [h];
  }

  lemma TwoFields(std: Standard, p: Peer, f: Field, p1: Peer, h: Header, f': Field, p2: Peer, h': Header)
    requires |std.huffman| == 257 && |std.statics| == STATIC_LEN
    requires Apply(std, p, f) == Some((p1, Some(h))) && Apply(std, p1, f') == Some((p2, Some(h')))
    ensures ApplyAll(std, p, [f, f']) == Some((p2, [h, h']))
  {
    OneField(std, p1, f', p2, h');
    assert [f, f'][1..] == [f'];
    assert Cons(Some(h), [h']) == [h, h'];
  }

  // ---------------------------------------------------------------- names of unknown encodings

  /**
   A literal is seen as the encoding it is if and only if its name is not that of an entry with an
   unknown encoding.
  */
  lemma EncodingMatchExact(std: Standard, services: seq<Service>, known: seq<Route>, dynamic: seq<Entry>, p: Peer,
          f: Field)
    requires ValidStandard(std) && NamesFit(std.huffman) && f.Literal? && f.name != ByIndex(0)
    requires TableSim(services, known, dynamic, p.table, true)
    requires NameText(std, p, f.name).Some?
    ensures var m := Match(std.huffman, dynamic, f.name, f.value);
            && m.Ok?
            && ((m.value.EncodingMatch? <==> NameText(std, p, f.name).value == GRPC_ENCODING) <==> !OpaqueName(p, f))
  {
    MatchAgrees(std, services, known, dynamic, p, f, true);
    if OpaqueName(p, f) {
      var e, _ := LookupAgrees(std, services, known, dynamic, p, f.name.i, true);
    }
  }

  /**
   What a literal does to the encoding of a request is right if and only if it is no missed encoding,
   or that encoding was in force before.
  */
  lemma EncodingExact(std: Standard, services: seq<Service>, known: seq<Route>, scan: Scan, p: Peer, f: Field)
    requires Setting(std) && f.Literal? && f.name != ByIndex(0)
    requires TableSim(services, known, scan.st.dynamic, p.table, true)
    requires Apply(std, p, f).Some? && ApplyField(std.huffman, scan, f).Ok?
    ensures var h := Apply(std, p, f).value.1.value;
            ApplyField(std.huffman, scan, f).value.encoding == EncodingFrom(h, scan.encoding) <==>
            !Missed(std, p, f) || ToEncoding(std.huffman, f.value) == Some(scan.encoding)
  {
    EncodingMatchExact(std, services, known, scan.st.dynamic, p, f);
    MatchAgrees(std, services, known, scan.st.dynamic, p, f, true);
  }

  /** "br", an encoding the server does not know. */
  const BR: seq<byte> := [98, 114]

  /** A request that puts its path and `grpc-encoding: br` into the table. */
  function NewEncoding(path: seq<byte>): seq<Field> {
    [Literal(true, ByText(Plain(PATH)), Plain(path)), Literal(true, ByText(Plain(GRPC_ENCODING)), Plain(BR))]
  }

  /** A request for the same path with gzip, under the name of the entry for br. */
  const AGAIN: seq<Field> := [Indexed(63), Literal(false, ByIndex(62), Plain(GZIP))]

  lemma StandardReadsGzip(std: Standard, path: seq<byte>)
    requires |std.huffman| == 257 && |std.statics| == STATIC_LEN && |path| < 4000
    ensures var p := Peer([Header(GRPC_ENCODING, BR), Header(PATH, path)], TABLE_SIZE);
            && ApplyAll(std, EMPTY, NewEncoding(path)) == Some((p, [Header(PATH, path), Header(GRPC_ENCODING, BR)]))
            && ApplyAll(std, p, AGAIN) == Some((p, [Header(PATH, path), Header(GRPC_ENCODING, GZIP)]))
  {
    var h, e := Header(PATH, path), Header(GRPC_ENCODING, BR);
    var p1, p := Peer([h], TABLE_SIZE), Peer([e, h], TABLE_SIZE);
    assert Insert(EMPTY, h) == p1 by {
      assert [h] + [] == [h] && [h][1..] == [];
    }
    assert Insert(p1, e) == p by {
      assert [e] + [h] == [e, h] && [e, h][1..] == [h] && [h][1..] == [];
      assert Size([h]) == |path| + 37 && Size([e, h]) == 47 + Size([h]);
    }
    var fs := NewEncoding(path);
    TwoFields(std, EMPTY, fs[0], p1, h, fs[1], p, e);
    TwoFields(std, p, AGAIN[0], p, h, AGAIN[1], p, Header(GRPC_ENCODING, GZIP));
  }

  lemma ServerReadsNone(std: Standard, path: seq<byte>)
    requires Setting(std)
    ensures var st := State(1, [Entry(Some(0), None), Entry(None, None)], map[], map[]);
            && ScanFields(std.huffman, Start(INITIAL), NewEncoding(path)) ==
                 Ok(Scan(st, Some(PlainPath(path)), Identity))
            && ScanFields(std.huffman, Start(st), AGAIN) == Ok(Scan(st, Some(Cached(0)), Identity))
  {
    var code, fs := std.huffman, NewEncoding(path);
    var path0, none := Entry(Some(0), None), Entry(None, None);
    var one := Scan(State(1, [path0], map[], map[]), Some(PlainPath(path)), Identity);
    var two := Scan(State(1, [path0, none], map[], map[]), Some(PlainPath(path)), Identity);
    assert |BR| != |GZIP| && |BR| != |DEFLATE| && |BR| != |ZSTD|;
    assert |PATH| != |GRPC_ENCODING|;
    assert [] + [path0] == [path0] && [path0] + [none] == [path0, none];
    assert ApplyField(code, Start(INITIAL), fs[0]) == Ok(one);
    assert ApplyField(code, one, fs[1]) == Ok(two);
    TwoScans(code, Start(INITIAL), fs[0], one, fs[1]);
    var st := two.st;
    var found := Scan(st, Some(Cached(0)), Identity);
    assert ApplyField(code, Start(st), AGAIN[0]) == Ok(found);
    assert ApplyField(code, found, AGAIN[1]) == Ok(found);
    TwoScans(code, Start(st), AGAIN[0], found, AGAIN[1]);
  }

  lemma OneScan(code: Huffman.Code, scan: Scan, f: Field)
    requires |code| == 257
    ensures ScanFields(code, scan, [f]) == ApplyField(code, scan, f)
  {
    assert [f][1..] == [];
  }

  lemma TwoScans(code: Huffman.Code, scan: Scan, f: Field, scan1: Scan, f': Field)
    requires |code| == 257 && ApplyField(code, scan, f) == Ok(scan1) && ApplyField(code, scan1, f').Ok?
    ensures ScanFields(code, scan, [f, f']) == ApplyField(code, scan1, f')
  {
    OneScan(code, scan1, f');
    assert [f, f'][1..] == [f'];
  }

  lemma MissedByServer(std: Standard, services: seq<Service>, path: seq<byte>)
    requires Setting(std) && |path| < 4000 && RouteOf(services, path).Some?
    ensures var blocks := [BlockBytes(NewEncoding(path)), BlockBytes(AGAIN)];
            var route := RouteOf(services, path).value;
            var served := Serve(std.huffman, services, blocks);
            served.Ok? && served.value.routes == [(route, Identity), (route, Identity)]
  {
    var b1, b2 := BlockBytes(NewEncoding(path)), BlockBytes(AGAIN);
    var st := State(1, [Entry(Some(0), None), Entry(None, None)], map[], map[]);
    var route := RouteOf(services, path).value;
    ServerReadsNone(std, path);
    WrittenScans(std.huffman, Start(INITIAL), NewEncoding(path));
    ScanResolves(std.huffman, services, INITIAL, [], b1, Scan(st, Some(PlainPath(path)), Identity), route);
    assert [] + [route] == [route];
    WrittenScans(std.huffman, Start(st), AGAIN);
    ScanResolves(std.huffman, services, st, [route], b2, Scan(st, Some(Cached(0)), Identity), route);
    var r := Resolved(st, [route], route, Identity);
    TwoBlocksServed(std.huffman, services, b1, r, b2, r);
  }

  lemma ReadByStandard(std: Standard, services: seq<Service>, path: seq<byte>)
    requires Setting(std) && std.maxInt == MAX_BYTES && |path| < 4000 && RouteOf(services, path).Some?
    ensures var blocks := [BlockBytes(NewEncoding(path)), BlockBytes(AGAIN)];
            var route := RouteOf(services, path).value;
            var read := Reference(std, services, blocks);
            read.Some? && read.value.routes == [(route, Identity), (route, Gzip)]
  {
    var b1, b2 := BlockBytes(NewEncoding(path)), BlockBytes(AGAIN);
    var p := Peer([Header(GRPC_ENCODING, BR), Header(PATH, path)], TABLE_SIZE);
    var route := RouteOf(services, path).value;
    BlockReadsBack(std, EMPTY, NewEncoding(path));
    BlockReadsBack(std, p, AGAIN);
    StandardReadsGzip(std, path);
    PathAndEncoding(path, BR);
    PathAndEncoding(path, GZIP);
    TwoBlocksRead(std, services, b1, p, (route, Identity), b2, p, (route, Gzip));
  }

  /**
   A name of an unknown encoding is missed: of a request for gzip under that name, the standard reads
   gzip and the server no encoding.
  */
  lemma EncodingIsMissed(std: Standard, services: seq<Service>, path: seq<byte>)
    requires Setting(std) && std.maxInt == MAX_BYTES && |path| < 4000 && RouteOf(services, path).Some?
    ensures var blocks := [BlockBytes(NewEncoding(path)), BlockBytes(AGAIN)];
            var route := RouteOf(services, path).value;
            var served, read := Serve(std.huffman, services, blocks), Reference(std, services, blocks);
            && served.Ok? && served.value.routes == [(route, Identity), (route, Identity)]
            && read.Some? && read.value.routes == [(route, Identity), (route, Gzip)]
  {
    MissedByServer(std, services, path);
    ReadByStandard(std, services, path);
  }

  lemma ScanResolves(code: Huffman.Code, services: seq<Service>, st: State, cache: seq<Route>, block: seq<byte>,
          scan: Scan, route: Route)
    requires |code| == 257 && ScanBlock(code, Start(st), block) == Ok(scan) && scan.path.Some?
    requires match scan.path.value
             case PlainPath(path) => RouteOf(services, path) == Some(route)
             case Cached(i) => i < |cache| && cache[i] == route
    ensures ResolveResult(code, services, st, cache, block) ==
            Ok(Resolved(scan.st, if scan.path.value.PlainPath? then cache + [route] else cache, route, scan.encoding))
  {}

  lemma TwoBlocksServed(code: Huffman.Code, services: seq<Service>, b1: seq<byte>, r1: Resolved, b2: seq<byte>,
          r2: Resolved)
    requires |code| == 257
    requires ResolveResult(code, services, INITIAL, [], b1) == Ok(r1)
    requires ResolveResult(code, services, r1.st, r1.cache, b2) == Ok(r2)
    ensures Serve(code, services, [b1, b2]) ==
            Ok(Served(r2.st, r2.cache, [(r1.route, r1.encoding), (r2.route, r2.encoding)]))
  {
    var x1, x2 := (r1.route, r1.encoding), (r2.route, r2.encoding);
    var s1 := Served(r1.st, r1.cache, [x1]);
    assert [] + [b1] == [b1] && [b1] + [b2] == [b1, b2];
    assert [] + [x1] == [x1] && [x1] + [x2] == [x1, x2];
    ServeOne(code, services, [], Served(INITIAL, [], []), b1, r1);
    ServeOne(code, services, [b1], s1, b2, r2);
  }

  lemma ServeOne(code: Huffman.Code, services: seq<Service>, before: seq<seq<byte>>, s: Served, block: seq<byte>,
          r: Resolved)
    requires |code| == 257 && Serve(code, services, before) == Ok(s)
    requires ResolveResult(code, services, s.st, s.cache, block) == Ok(r)
    ensures Serve(code, services, before + [block]) == Ok(Served(r.st, r.cache, s.routes + [(r.route, r.encoding)]))
  {
    assert (before + [block])[..|before|] == before;
  }

  /** What the standard reads of a block: the route of its one path, and its encoding. */
  ghost predicate BlockRead(std: Standard, services: seq<Service>, p: Peer, block: seq<byte>, p': Peer,
          read: (Route, GrpcEncoding))
    requires |std.huffman| == 257 && |std.statics| == STATIC_LEN
  {
    && DecodeBlock(std, p, block).Some?
    && var (after, hs) := DecodeBlock(std, p, block).value;
       after == p' && |Paths(hs)| == 1 && RouteOf(services, Paths(hs)[0]) == Some(read.0) && EncodingIn(hs) == read.1
  }

  lemma TwoBlocksRead(std: Standard, services: seq<Service>, b1: seq<byte>, p1: Peer, r1: (Route, GrpcEncoding),
                      b2: seq<byte>, p2: Peer, r2: (Route, GrpcEncoding))
    requires |std.huffman| == 257 && |std.statics| == STATIC_LEN
    requires BlockRead(std, services, EMPTY, b1, p1, r1) && BlockRead(std, services, p1, b2, p2, r2)
    ensures Reference(std, services, [b1, b2]) == Some(Read(p2, [r1, r2]))
  {
    assert [] + [b1] == [b1] && [b1] + [b2] == [b1, b2];
    ReadOne(std, services, [], Read(EMPTY, []), b1, p1, r1);
    ReadOne(std, services, [b1], Read(p1, [] + [r1]), b2, p2, r2);
    assert ([] + [r1]) + [r2] == [r1, r2];
  }

  lemma ReadOne(std: Standard, services: seq<Service>, before: seq<seq<byte>>, read: Read, block: seq<byte>, p: Peer,
          r: (Route, GrpcEncoding))
    requires |std.huffman| == 257 && |std.statics| == STATIC_LEN && Reference(std, services, before) == Some(read)
    requires BlockRead(std, services, read.peer, block, p, r)
    ensures Reference(std, services, before + [block]) == Some(Read(p, read.routes + [r]))
  {
    assert (before + [block])[..|before|] == before;
  }

  lemma PathAndEncoding(path: seq<byte>, encoding: seq<byte>)
    ensures var hs := [Header(PATH, path), Header(GRPC_ENCODING, encoding)];
            Paths(hs) == [path] && EncodingIn(hs) == EncodingFrom(hs[1], Identity)
  {
    var h, e := Header(PATH, path), Header(GRPC_ENCODING, encoding);
    assert [] + [h] == [h] && [h] + [e] == [h, e];
    NamesDiffer();
    SeePath([], h);
    assert Paths([h]) == [] + [path] && EncodingIn([h]) == Identity;
    SeePath([h], e);
  }

  lemma NamesDiffer()
    ensures PATH != GRPC_ENCODING
  {
    assert |PATH| != |GRPC_ENCODING|;
  }
}
