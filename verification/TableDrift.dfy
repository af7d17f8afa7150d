/**
 How far the server's table may drift from its peer's (pajamax/src/hpack_decoder.rs). The relation that
 routing by cache keeps, RouteCache.TableSim, is exactly what it needs: from any other state of the
 peer, some good request is served wrongly.
*/
module TableDrift {
  import opened Wrappers
  import opened Bits
  import opened HpackInt
  import opened HpackReference
  import opened HpackFields
  import opened HpackDecoder
  import opened RouteCache
  import opened RouteLimits
  import Huffman

  /** A good request gets the route its peer meant, and with `strict` the encoding. */
  ghost predicate Right(std: Standard, services: seq<Service>, st: State, cache: seq<Route>, p: Peer, block: seq<byte>,
          strict: bool)
    requires |std.huffman| == 257 && |std.statics| == STATIC_LEN
  {
    match (DecodeBlock(std, p, block), ResolveResult(std.huffman, services, st, cache, block))
    case (Some((_, hs)), Ok(r)) =>
      |Paths(hs)| == 1 && Some(r.route) == RouteOf(services, Paths(hs)[0]) && (strict ==> r.encoding == EncodingIn(hs))
    case _ => false
  }

  predicate Fits(p: Peer) {
    Size(p.table) <= p.maxSize <= TABLE_SIZE
  }

  /** Where the run of the server and the meaning of the peer are after the same blocks. */
  ghost predicate Parallel(std: Standard, services: seq<Service>, served: Result<Served>, client: Option<Read>,
          strict: bool)
    requires ValidStandard(std)
  {
    && served.Ok? && client.Some?
    && SameRoutes(served.value.routes, client.value.routes, strict)
    && served.value.st.next == |served.value.cache|
    && MapsSim(std.huffman, services, served.value.cache, served.value.st)
    && Fits(client.value.peer)
  }

  // ---------------------------------------------------------------- requests to ask with

  function PathText(path: seq<byte>): Field {
    Literal(false, ByText(Plain(PATH)), Plain(path))
  }

  const GZIP_TEXT: Field := Literal(false, ByText(Plain(GRPC_ENCODING)), Plain(GZIP))

  /** A written field that does not change the table, and is read alike by standard and server. */
  ghost predicate Asks(std: Standard, p: Peer, f: Field, strict: bool)
    requires |std.huffman| == 257
  {
    && Writable(f) && Short(f) && (f.Literal? ==> !f.indexing)
    && f != Indexed(4) && f != Indexed(5)
    && (strict ==> !Missed(std, p, f))
  }

  ghost predicate AllAsk(std: Standard, p: Peer, fs: seq<Field>, strict: bool)
    requires |std.huffman| == 257
  {
    forall i :: 0 <= i < |fs| ==> Asks(std, p, fs[i], strict)
  }

  lemma {:induction false} AskedTame(std: Standard, p: Peer, fs: seq<Field>, strict: bool)
    requires ValidStandard(std) && std.maxInt == MAX_BYTES && AllAsk(std, p, fs, strict)
    ensures AllWritable(fs) && AllShort(fs)
    ensures Tame(std, p, BlockBytes(fs), strict)
    decreases |fs|
  {
    if fs != [] {
      var rest := BlockBytes(fs[1..]);
      var buf := FieldBytes(fs[0]) + rest;
      AskedTame(std, p, fs[1..], strict);
      FieldReadsBack(std.maxInt, fs[0], rest);
      StaticPathOctet(std.maxInt, buf);
      assert buf[|FieldBytes(fs[0])|..] == rest;
    }
  }

  /** A request made of such fields is good if its headers have one path, which is routed. */
  lemma Asked(std: Standard, services: seq<Service>, p: Peer, fs: seq<Field>, hs: seq<Header>, strict: bool)
    requires ValidStandard(std) && std.maxInt == MAX_BYTES && AllAsk(std, p, fs, strict)
    requires ApplyAll(std, p, fs) == Some((p, hs)) && |Paths(hs)| == 1 && RouteOf(services, Paths(hs)[0]).Some?
    ensures AllWritable(fs) && AllShort(fs) && GoodBlock(std, services, p, BlockBytes(fs), strict)
    ensures DecodeBlock(std, p, BlockBytes(fs)) == Some((p, hs))
  {
    AskedTame(std, p, fs, strict);
    BlockReadsBack(std, p, fs);
  }

  lemma ThreeFields(std: Standard, p: Peer, f: Field, h: Header, g: Field, k: Header, e: Field, l: Header)
    requires |std.huffman| == 257 && |std.statics| == STATIC_LEN
    requires Apply(std, p, f) == Some((p, Some(h))) && Apply(std, p, g) == Some((p, Some(k)))
    requires Apply(std, p, e) == Some((p, Some(l)))
    ensures ApplyAll(std, p, [f, g, e]) == Some((p, [h, k, l]))
  {
    TwoFields(std, p, g, p, k, e, p, l);
    assert [f, g, e][1..] == [g, e];
    assert Cons(Some(h), [k, l]) == [h, k, l];
  }

  /** The server on one more field. */
  lemma {:induction false} ScanMore(code: Huffman.Code, scan: Scan, fs: seq<Field>, f: Field)
    requires |code| == 257 && ScanFields(code, scan, fs).Ok?
    ensures ScanFields(code, scan, fs + [f]) == ApplyField(code, ScanFields(code, scan, fs).value, f)
    decreases |fs|
  {
    if fs == [] {
      assert fs + [f] == [f];
      OneScan(code, scan, f);
    } else {
      assert (fs + [f])[0] == fs[0] && (fs + [f])[1..] == fs[1..] + [f];
      ScanMore(code, ApplyField(code, scan, fs[0]).value, fs[1..], f);
    }
  }

  // ---------------------------------------------------------------- what comes before the field asked about

  function Before(path: Option<seq<byte>>, gzip: bool): seq<Field> {
    (if path.Some? then [PathText(path.value)] else []) + (if gzip then [GZIP_TEXT] else [])
  }

  /** The encoding after a field that asks for one or none. */
  function Over(e: Option<GrpcEncoding>, gzip: bool): GrpcEncoding {
    if e.Some? then e.value else if gzip then Gzip else Identity
  }

  /** After it the table is as it was, there is a path or none, and the encoding is gzip or none. */
  lemma ScanBefore(code: Huffman.Code, st: State, path: Option<seq<byte>>, gzip: bool) returns (scan: Scan)
    requires |code| == 257
    ensures ScanFields(code, Start(st), Before(path, gzip)) == Ok(scan)
    ensures scan.st.dynamic == st.dynamic && scan.path.Some? == path.Some?
    ensures scan.encoding == if gzip then Gzip else Identity
  {
    scan := Start(st);
    if path.Some? {
      assert Match(code, st.dynamic, ByText(Plain(PATH)), Plain(path.value)) == Ok(PathMatch(Plain(path.value)));
      OneScan(code, scan, PathText(path.value));
      scan := ApplyField(code, scan, PathText(path.value)).value;
    }
    var fs := if path.Some? then [PathText(path.value)] else [];
    assert ScanFields(code, Start(st), fs) == Ok(scan);
    if gzip {
      ScanGzip(code, scan);
      ScanMore(code, Start(st), fs, GZIP_TEXT);
      scan := scan.(encoding := Gzip);
    } else {
      assert fs + [] == fs;
    }
  }

  lemma ScanGzip(code: Huffman.Code, scan: Scan)
    requires |code| == 257
    ensures ApplyField(code, scan, GZIP_TEXT) == Ok(scan.(encoding := Gzip))
  {
    NamesDiffer();
    assert Match(code, scan.st.dynamic, GZIP_TEXT.name, GZIP_TEXT.value) == Ok(EncodingMatch(Plain(GZIP)));
    assert ToEncoding(code, Plain(GZIP)) == Some(Gzip);
  }

  /** The entry of the server's table that an index selects. */
  ghost predicate HasEntry(st: State, j: nat) {
    j < |st.dynamic|
  }

  /** What a request that is served rightly says about the scan of its block. */
  lemma RightScan(std: Standard, services: seq<Service>, st: State, cache: seq<Route>, p: Peer, block: seq<byte>,
          strict: bool)
    requires |std.huffman| == 257 && |std.statics| == STATIC_LEN
    requires Right(std, services, st, cache, p, block, strict)
    ensures DecodeBlock(std, p, block).Some? && ScanBlock(std.huffman, Start(st), block).Ok?
    ensures var scan, hs := ScanBlock(std.huffman, Start(st), block).value, DecodeBlock(std, p, block).value.1;
            && |Paths(hs)| == 1 && scan.path.Some?
            && (scan.path.value.Cached? ==>
                  var i := scan.path.value.index;
                  i < |cache| && Some(cache[i]) == RouteOf(services, Paths(hs)[0]))
            && (strict ==> scan.encoding == EncodingIn(hs))
  {}

  lemma IndexStep(code: Huffman.Code, scan: Scan, j: nat)
    requires |code| == 257 && ApplyField(code, scan, Indexed(STATIC_LEN + 1 + j)).Ok?
    ensures HasEntry(scan.st, j)
    ensures var e, after := Recent(scan.st.dynamic, j), ApplyField(code, scan, Indexed(STATIC_LEN + 1 + j)).value;
            && after.path == (if e.path.Some? then Some(Cached(e.path.value)) else scan.path)
            && after.encoding == if e.encoding.Some? then e.encoding.value else scan.encoding
  {}

  /** A path or none, perhaps an encoding, and the entry asked about. */
  function Request(path: Option<seq<byte>>, gzip: bool, j: nat): seq<Field> {
    Before(path, gzip) + [Indexed(STATIC_LEN + 1 + j)]
  }

  lemma ScanRequest(code: Huffman.Code, st: State, path: Option<seq<byte>>, gzip: bool, j: nat)
    requires |code| == 257
    requires AllWritable(Request(path, gzip, j)) && AllShort(Request(path, gzip, j))
    requires ScanBlock(code, Start(st), BlockBytes(Request(path, gzip, j))).Ok?
    ensures HasEntry(st, j)
    ensures var e, after := Recent(st.dynamic, j), ScanBlock(code, Start(st), BlockBytes(Request(path, gzip, j))).value;
            && (e.path.Some? ==> after.path == Some(Cached(e.path.value)))
            && (e.path.None? ==> after.path.Some? == path.Some?)
            && after.encoding == Over(e.encoding, gzip)
  {
    var f := Indexed(STATIC_LEN + 1 + j);
    var scan := ScanBefore(code, st, path, gzip);
    WrittenScans(code, Start(st), Request(path, gzip, j));
    ScanMore(code, Start(st), Before(path, gzip), f);
    IndexStep(code, scan, j);
  }

  /** What a request that is served rightly says about the entry asked about. */
  lemma ServerOnIndex(std: Standard, services: seq<Service>, st: State, cache: seq<Route>, p: Peer,
          path: Option<seq<byte>>, gzip: bool, j: nat, hs: seq<Header>, strict: bool)
    requires |std.huffman| == 257 && |std.statics| == STATIC_LEN
    requires AllWritable(Request(path, gzip, j)) && AllShort(Request(path, gzip, j))
    requires Right(std, services, st, cache, p, BlockBytes(Request(path, gzip, j)), strict)
    requires DecodeBlock(std, p, BlockBytes(Request(path, gzip, j))) == Some((p, hs))
    ensures HasEntry(st, j) && |Paths(hs)| == 1
    ensures var e := Recent(st.dynamic, j);
            && (e.path.Some? ==> e.path.value < |cache| && Some(cache[e.path.value]) == RouteOf(services, Paths(hs)[0]))
            && (path.None? ==> e.path.Some?)
            && (strict ==> EncodingIn(hs) == Over(e.encoding, gzip))
  {
    RightScan(std, services, st, cache, p, BlockBytes(Request(path, gzip, j)), strict);
    ScanRequest(std.huffman, st, path, gzip, j);
  }

  // ---------------------------------------------------------------- what the peer means by it

  function HeadersBefore(path: Option<seq<byte>>, gzip: bool): seq<Header> {
    (if path.Some? then [Header(PATH, path.value)] else []) + (if gzip then [Header(GRPC_ENCODING, GZIP)] else [])
  }

  lemma PeerMeans(std: Standard, p: Peer, path: Option<seq<byte>>, gzip: bool, j: nat)
    requires |std.huffman| == 257 && |std.statics| == STATIC_LEN && j < |p.table|
    ensures ApplyAll(std, p, Request(path, gzip, j)) == Some((p, HeadersBefore(path, gzip) + [p.table[j]]))
  {
    var f, h := Indexed(STATIC_LEN + 1 + j), p.table[j];
    if path.Some? {
      var k := Header(PATH, path.value);
      if gzip {
        var z := Header(GRPC_ENCODING, GZIP);
        ThreeFields(std, p, PathText(path.value), k, GZIP_TEXT, z, f, h);
        assert Request(path, gzip, j) == [PathText(path.value), GZIP_TEXT, f];
        assert HeadersBefore(path, gzip) + [h] == [k, z, h];
      } else {
        TwoFields(std, p, PathText(path.value), p, k, f, p, h);
        assert Request(path, gzip, j) == [PathText(path.value), f];
        assert HeadersBefore(path, gzip) + [h] == [k, h];
      }
    } else if gzip {
      var z := Header(GRPC_ENCODING, GZIP);
      TwoFields(std, p, GZIP_TEXT, p, z, f, p, h);
      assert Request(path, gzip, j) == [GZIP_TEXT, f];
      assert HeadersBefore(path, gzip) + [h] == [z, h];
    } else {
      OneField(std, p, f, p, h);
      assert Request(path, gzip, j) == [f];
      assert HeadersBefore(path, gzip) + [h] == [h];
    }
  }

  lemma HeadersBeforeMean(path: Option<seq<byte>>, gzip: bool)
    ensures Paths(HeadersBefore(path, gzip)) == if path.Some? then [path.value] else []
    ensures EncodingIn(HeadersBefore(path, gzip)) == if gzip then Gzip else Identity
  {
    NamesDiffer();
    var hs := if path.Some? then [Header(PATH, path.value)] else [];
    if path.Some? {
      SeePath([], Header(PATH, path.value));
      assert [] + hs == hs;
    }
    if gzip {
      SeePath(hs, Header(GRPC_ENCODING, GZIP));
    } else {
      assert hs + [] == hs;
    }
  }

  lemma MeantBefore(path: Option<seq<byte>>, gzip: bool, h: Header)
    ensures var hs := HeadersBefore(path, gzip) + [h];
            && Paths(hs) == (if path.Some? then [path.value] else []) + (if h.name == PATH then [h.value] else [])
            && EncodingIn(hs) == Over(Meant(h), gzip)
  {
    HeadersBeforeMean(path, gzip);
    SeePath(HeadersBefore(path, gzip), h);
  }

  // ---------------------------------------------------------------- one entry

  lemma {:induction false} SizeCounts(table: seq<Header>)
    ensures 32 * |table| <= Size(table)
    decreases |table|
  {
    if table != [] {
      SizeCounts(table[1..]);
    }
  }

  /** Every good request is served rightly. */
  ghost predicate AllRight(std: Standard, services: seq<Service>, st: State, cache: seq<Route>, p: Peer, strict: bool)
    requires ValidStandard(std)
  {
    forall block :: GoodBlock(std, services, p, block, strict) ==> Right(std, services, st, cache, p, block, strict)
  }

  /** A request for an entry, with a path of its own unless the entry is one. */
  ghost predicate Askable(services: seq<Service>, path: Option<seq<byte>>, h: Header) {
    if h.name == PATH then path.None? && RouteOf(services, h.value).Some?
    else path.Some? && |path.value| < LIMIT && RouteOf(services, path.value).Some?
  }

  lemma RequestAsks(std: Standard, p: Peer, path: Option<seq<byte>>, gzip: bool, j: nat, strict: bool)
    requires |std.huffman| == 257 && j < 128 && (path.Some? ==> |path.value| < LIMIT)
    ensures AllAsk(std, p, Request(path, gzip, j), strict)
  {}

  lemma AskIndex(std: Standard, services: seq<Service>, st: State, cache: seq<Route>, p: Peer,
          path: Option<seq<byte>>, gzip: bool, j: nat, strict: bool)
    requires Setting(std) && std.maxInt == MAX_BYTES && AllRight(std, services, st, cache, p, strict)
    requires j < |p.table| && j < 128 && Askable(services, path, p.table[j])
    ensures HasEntry(st, j)
    ensures var e, h := Recent(st.dynamic, j), p.table[j];
            && (path.None? ==> e.path.Some?)
            && (e.path.Some? ==> Knows(services, cache, e.path.value, if path.Some? then path.value else h.value))
            && (strict ==> Over(Meant(h), gzip) == Over(e.encoding, gzip))
  {
    var h := p.table[j];
    var hs := HeadersBefore(path, gzip) + [h];
    RequestAsks(std, p, path, gzip, j, strict);
    PeerMeans(std, p, path, gzip, j);
    MeantBefore(path, gzip, h);
    Asked(std, services, p, Request(path, gzip, j), hs, strict);
    ServerOnIndex(std, services, st, cache, p, path, gzip, j, hs, strict);
  }

  /** A path under the name of an entry. */
  function NameProbe(j: nat, path: seq<byte>): seq<Field> {
    [Literal(false, ByIndex(STATIC_LEN + 1 + j), Plain(path))]
  }

  lemma NameStep(code: Huffman.Code, st: State, j: nat, path: seq<byte>)
    requires |code| == 257
    requires var r := ApplyField(code, Start(st), Literal(false, ByIndex(STATIC_LEN + 1 + j), Plain(path)));
             r.Ok? && r.value.path.Some?
    ensures HasEntry(st, j) && Recent(st.dynamic, j).path.Some?
  {
    var m := Classify(STATIC_LEN + 1 + j, st.dynamic, Plain(path));
    assert m.Ok? && m.value.PathMatch?;
  }

  lemma ScanName(code: Huffman.Code, st: State, j: nat, path: seq<byte>)
    requires |code| == 257 && j < 128 && |path| < LIMIT
    requires ScanBlock(code, Start(st), BlockBytes(NameProbe(j, path))).Ok?
    requires ScanBlock(code, Start(st), BlockBytes(NameProbe(j, path))).value.path.Some?
    ensures HasEntry(st, j) && Recent(st.dynamic, j).path.Some?
  {
    var fs := NameProbe(j, path);
    WrittenScans(code, Start(st), fs);
    OneScan(code, Start(st), fs[0]);
    assert fs == [fs[0]];
    NameStep(code, st, j, path);
  }

  lemma AskName(std: Standard, services: seq<Service>, st: State, cache: seq<Route>, p: Peer, path: seq<byte>, j: nat,
          strict: bool)
    requires Setting(std) && std.maxInt == MAX_BYTES && AllRight(std, services, st, cache, p, strict)
    requires j < |p.table| && j < 128 && p.table[j].name == PATH
    requires |path| < LIMIT && RouteOf(services, path).Some?
    ensures HasEntry(st, j) && Recent(st.dynamic, j).path.Some?
  {
    NamesDiffer();
    var fs, h := NameProbe(j, path), Header(PATH, path);
    OneField(std, p, fs[0], p, h);
    SeePath([], h);
    assert [] + [h] == [h];
    Asked(std, services, p, fs, [h], strict);
    RightScan(std, services, st, cache, p, BlockBytes(fs), strict);
    ScanName(std.huffman, st, j, path);
  }

  /** Two short paths that are routed apart. */
  ghost predicate Apart(services: seq<Service>, a: seq<byte>, b: seq<byte>) {
    && |a| < LIMIT && |b| < LIMIT
    && RouteOf(services, a).Some? && RouteOf(services, b).Some? && RouteOf(services, a) != RouteOf(services, b)
  }

  /** What the requests that ask for an entry say of it. */
  lemma EntryAsked(std: Standard, services: seq<Service>, st: State, cache: seq<Route>, p: Peer, a: seq<byte>,
          b: seq<byte>, j: nat, strict: bool)
    requires Setting(std) && std.maxInt == MAX_BYTES && AllRight(std, services, st, cache, p, strict)
    requires Apart(services, a, b) && j < |p.table| && j < 128
    ensures HasEntry(st, j) && EntrySim(services, cache, Recent(st.dynamic, j), p.table[j], strict)
  {
    var h := p.table[j];
    if h.name == PATH {
      AskName(std, services, st, cache, p, a, j, strict);
      if RouteOf(services, h.value).Some? {
        AskIndex(std, services, st, cache, p, None, false, j, strict);
        AskIndex(std, services, st, cache, p, None, true, j, strict);
      }
    } else {
      AskIndex(std, services, st, cache, p, Some(a), false, j, strict);
      AskIndex(std, services, st, cache, p, Some(b), false, j, strict);
      AskIndex(std, services, st, cache, p, Some(a), true, j, strict);
    }
  }

  /**
   Every good request from a peer is served rightly if and only if the peer's table is related to the
   server's: its entries are, one by one, the newest of the server, each a path if and only if it is
   one, with the route of that path, and with `strict` the encoding of the header.
  */
  lemma DriftExact(std: Standard, services: seq<Service>, st: State, cache: seq<Route>, p: Peer, a: seq<byte>,
          b: seq<byte>, strict: bool)
    requires Setting(std) && std.maxInt == MAX_BYTES && Fits(p) && Apart(services, a, b)
    requires st.next == |cache| && MapsSim(std.huffman, services, cache, st)
    ensures AllRight(std, services, st, cache, p, strict) <==> TableSim(services, cache, st.dynamic, p.table, strict)
  {
    if TableSim(services, cache, st.dynamic, p.table, strict) {
      forall block | GoodBlock(std, services, p, block, strict)
        ensures Right(std, services, st, cache, p, block, strict)
      {
        ResolveAgrees(std, services, st, cache, p, block, strict);
      }
    }
    if AllRight(std, services, st, cache, p, strict) {
      SizeCounts(p.table);
      forall j | 0 <= j < |p.table|
        ensures HasEntry(st, j) && EntrySim(services, cache, Recent(st.dynamic, j), p.table[j], strict)
      {
        EntryAsked(std, services, st, cache, p, a, b, j, strict);
      }
      if p.table != [] {
        assert HasEntry(st, |p.table| - 1);
      }
    }
  }
}
