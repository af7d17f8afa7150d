/**
 Routing by cache (resolve_route, pajamax/src/connection.rs). The decoder hands out cache indexes and
 the caller appends to the cache; the two only stay in step by convention. The proof relates both
 to a reference decoder that keeps the header text.
*/
module RouteCache {
  import opened Wrappers
  import opened Bits
  import opened HpackInt
  import opened HpackReference
  import opened HpackDecoder
  import Huffman
  import HuffmanDecode

  /** `PajamaxService::route`: the method a service has for a path. */
  type Service = seq<byte> -> Option<nat>

  type Route = (nat, nat)

  /** The first service, from i on, that has a method for the path. */
  function FirstRoute(services: seq<Service>, path: seq<byte>, i: nat): (r: Option<Route>)
    requires i <= |services|
    ensures r.Some? ==> i <= r.value.0 < |services| && services[r.value.0](path) == Some(r.value.1)
    ensures r.Some? ==> forall j :: i <= j < r.value.0 ==> services[j](path) == None
    ensures r.None? ==> forall j :: i <= j < |services| ==> services[j](path) == None
    decreases |services| - i
  {
    if i == |services| then None
    else
      match services[i](path)
      case Some(disc) => Some((i, disc))
      case None => FirstRoute(services, path, i + 1)
  }

  function RouteOf(services: seq<Service>, path: seq<byte>): Option<Route> {
    FirstRoute(services, path, 0)
  }

  /** Service i has the method for the path, and no service before it has one. */
  predicate IsFirst(services: seq<Service>, path: seq<byte>, route: Route) {
    && route.0 < |services| && services[route.0](path) == Some(route.1)
    && forall j :: 0 <= j < route.0 ==> services[j](path) == None
  }

  /** No service has a method for the path. */
  predicate IsUnknown(services: seq<Service>, path: seq<byte>) {
    forall j :: 0 <= j < |services| ==> services[j](path) == None
  }

  /** The search finds that service and its method, and nothing if and only if there is none. */
  lemma RouteIsFirst(services: seq<Service>, path: seq<byte>, route: Route)
    ensures RouteOf(services, path) == Some(route) <==> IsFirst(services, path, route)
    ensures RouteOf(services, path) == None <==> IsUnknown(services, path)
  {
    var r := RouteOf(services, path);
    assert IsFirst(services, path, route) ==> r.Some? && r.value.0 == route.0;
  }

  datatype Resolved = Resolved(st: State, cache: seq<Route>, route: Route, encoding: GrpcEncoding)

  function ResolveResult(code: Huffman.Code, services: seq<Service>, st: State, cache: seq<Route>, block: seq<byte>)
    : Result<Resolved>
    requires |code| == 257
  {
    var (st', found) :- FindResult(code, st, block);
    match found.path
    case Cached(i) =>
      if i < |cache| then Ok(Resolved(st', cache, cache[i], found.encoding)) else Panic
    case PlainPath(path) =>
      match RouteOf(services, path)
      case Some(route) => Ok(Resolved(st', cache + [route], route, found.encoding))
      case None => Err(UnknownMethod)
  }

  /**
   A path that is not in the cache yet gets the first service that has a method for it, and there is no
   other answer than that or an unknown method.
  */
  lemma FreshPathIsRouted(code: Huffman.Code, services: seq<Service>, st: State, cache: seq<Route>, block: seq<byte>,
          path: seq<byte>)
    requires |code| == 257
    requires FindResult(code, st, block).Ok? && FindResult(code, st, block).value.1.path == PlainPath(path)
    ensures match ResolveResult(code, services, st, cache, block)
            case Ok(r) => IsFirst(services, path, r.route) && r.cache == cache + [r.route]
            case Err(e) => e == UnknownMethod && IsUnknown(services, path)
            case Panic => false
  {
    match RouteOf(services, path)
    case Some(route) => RouteIsFirst(services, path, route);
    case None => RouteIsFirst(services, path, (0, 0));
  }

  method ResolveRoute(code: Huffman.Code, decoder: Decoder, routeCache0: seq<Route>, services: seq<Service>,
          headersBuf: seq<byte>)
    returns (r: Result<(nat, nat, GrpcEncoding)>, routeCache: seq<Route>)
    requires Huffman.ValidLengths(code)
    modifies decoder
    ensures var spec := ResolveResult(code, services, old(decoder.Abs()), routeCache0, headersBuf);
            if spec.Ok? then
              && r == Ok((spec.value.route.0, spec.value.route.1, spec.value.encoding))
              && decoder.Abs() == spec.value.st && routeCache == spec.value.cache
            else r == spec.PropagateFailure()
    ensures var found := FindResult(code, old(decoder.Abs()), headersBuf);
            found.Ok? && found.value.1.path.PlainPath? ==>
              var path := found.value.1.path.path;
              && (r == Err(UnknownMethod) <==> IsUnknown(services, path))
              && (r.Ok? <==> !IsUnknown(services, path))
              && (r.Ok? ==> IsFirst(services, path, (r.value.0, r.value.1)))
              && (r.Ok? ==> routeCache == routeCache0 + [(r.value.0, r.value.1)])
  {
    routeCache := routeCache0;
    var result := decoder.FindPathAndEncoding(code, headersBuf);
    if !result.Ok? {
      r := result.PropagateFailure();
      return;
    }
    match result.value.path
    case Cached(cached) =>
      if cached >= |routeCache| {
        r := Panic;
        return;
      }
      var (isvc, disc) := routeCache[cached];
      r := Ok((isvc, disc, result.value.encoding));
    case PlainPath(path) =>
      var len0 := |routeCache|;
      var i := 0;
      while i < |services| && |routeCache| == len0
        invariant 0 <= i <= |services|
        invariant if |routeCache| == len0 then
                    routeCache == routeCache0 && RouteOf(services, path) == FirstRoute(services, path, i)
                  else RouteOf(services, path).Some? && routeCache == routeCache0 + [RouteOf(services, path).value]
        decreases |services| - i
      {
        var disc := services[i](path);
        if disc.Some? {
          routeCache := routeCache + [(i, disc.value)];
        }
        i := i + 1;
      }
      if |routeCache| == len0 {
        r := Err(UnknownMethod);
        return;
      }
      var (isvc, disc) := routeCache[len0];
      r := Ok((isvc, disc, result.value.encoding));
  }

  // ---------------------------------------------------------------- what a request means

  /** The values of the `:path` fields of a header list. */
  function Paths(hs: seq<Header>): seq<seq<byte>> {
    if hs == [] then []
    else
      var h := hs[|hs| - 1];
      Paths(hs[..|hs| - 1]) + (if h.name == PATH then [h.value] else [])
  }

  function EncodingFrom(h: Header, before: GrpcEncoding): GrpcEncoding {
    if h.name == GRPC_ENCODING && EncodingOf(h.value).Some? then EncodingOf(h.value).value else before
  }

  /** The last recognised `grpc-encoding`. */
  function EncodingIn(hs: seq<Header>): GrpcEncoding {
    if hs == [] then Identity
    else EncodingFrom(hs[|hs| - 1], EncodingIn(hs[..|hs| - 1]))
  }

  // ---------------------------------------------------------------- bounds of the claim

  /** The code words of the two names the decoder looks for are short enough for `eq_str`. */
  ghost predicate NamesFit(code: Huffman.Code)
    requires |code| == 257
  {
    |Huffman.Encoded(code, PATH)| <= |PATH| && |Huffman.Encoded(code, GRPC_ENCODING)| <= |GRPC_ENCODING|
  }

  /** Tables of the right shape, and integers no longer than the server reads. */
  ghost predicate Setting(std: Standard) {
    && ValidStandard(std)
    && std.maxInt <= MAX_BYTES
    && NamesFit(std.huffman)
  }

  /** A field whose name is that of a table entry with an unknown grpc-encoding. */
  ghost predicate OpaqueName(p: Peer, f: Field) {
    && f.Literal? && f.name.ByIndex?
    && STATIC_LEN < f.name.i <= STATIC_LEN + |p.table|
    && var h := p.table[f.name.i - STATIC_LEN - 1];
       h.name == GRPC_ENCODING && EncodingOf(h.value).None?
  }

  /** Such a field whose own value is a known encoding: the server does not see that it is one. */
  ghost predicate Missed(std: Standard, p: Peer, f: Field)
    requires |std.huffman| == 257
  {
    OpaqueName(p, f) && ToEncoding(std.huffman, f.value).Some?
  }

  /**
   Along a block: no size update of 31 or more, whose first octet is 0x3f, no reference to the paths
   of the static table, and with `strict` no encoding that is missed.
  */
  ghost predicate Tame(std: Standard, p: Peer, buf: seq<byte>, strict: bool)
    requires ValidStandard(std)
    decreases |buf|
  {
    buf != [] && ParseField(std.maxInt, buf).Some? ==>
      && buf[0] != 0x3f && buf[0] != 0x84 && buf[0] != 0x85
      && var (f, n) := ParseField(std.maxInt, buf).value;
         && (strict ==> !Missed(std, p, f))
         && (Apply(std, p, f).Some? ==> Tame(std, Apply(std, p, f).value.0, buf[n..], strict))
  }

  // ---------------------------------------------------------------- the simulation

  ghost predicate Knows(services: seq<Service>, known: seq<Route>, i: nat, path: seq<byte>) {
    i < |known| && RouteOf(services, path) == Some(known[i])
  }

  /**
   An entry of the server's table for that header: it is a path if the header is, with the route of the
   path if there is one, and with `strict` it has the encoding of the header, if that can be asked for.
  */
  ghost predicate EntrySim(services: seq<Service>, known: seq<Route>, e: Entry, h: Header, strict: bool) {
    && (e.path.Some? <==> h.name == PATH)
    && (h.name == PATH && RouteOf(services, h.value).Some? ==> Knows(services, known, e.path.value, h.value))
    && (strict && (h.name == PATH ==> RouteOf(services, h.value).Some?) ==> e.encoding == Meant(h))
  }

  /** The encoding a header asks for. */
  function Meant(h: Header): Option<GrpcEncoding> {
    if h.name == GRPC_ENCODING then EncodingOf(h.value) else None
  }

  /** The entry of the grow-only table at a distance from its newest end. */
  function Recent(dynamic: seq<Entry>, j: nat): Entry
    requires j < |dynamic|
  {
    dynamic[|dynamic| - 1 - j]
  }

  /** The reference table is the most recent part of the table that never evicts. */
  ghost predicate TableSim(services: seq<Service>, known: seq<Route>, dynamic: seq<Entry>, table: seq<Header>,
          strict: bool) {
    && |table| <= |dynamic|
    && forall j :: 0 <= j < |table| ==> EntrySim(services, known, Recent(dynamic, j), table[j], strict)
  }

  ghost predicate MapsSim(code: Huffman.Code, services: seq<Service>, known: seq<Route>, st: State)
    requires |code| == 257
  {
    && (forall p :: p in st.plainPaths ==> Knows(services, known, st.plainPaths[p], p))
    && (forall x :: x in st.huffmanPaths ==>
          && HuffmanDecode.Decoded(code, x).Some?
          && Knows(services, known, st.huffmanPaths[x], HuffmanDecode.Decoded(code, x).value))
  }

  ghost predicate Sim(std: Standard, services: seq<Service>, known: seq<Route>, st: State, p: Peer, strict: bool)
    requires ValidStandard(std)
  {
    && st.next == |known|
    && TableSim(services, known, st.dynamic, p.table, strict)
    && MapsSim(std.huffman, services, known, st)
  }

  /** What the decoder has found after the fields that stand for the headers `seen`. */
  ghost predicate PathSim(services: seq<Service>, cache: seq<Route>, known: seq<Route>, path: Option<PathKind>,
          seen: seq<Header>) {
    match path
    case None => Paths(seen) == [] && known == cache
    case Some(Cached(i)) => |Paths(seen)| == 1 && known == cache && Knows(services, known, i, Paths(seen)[0])
    case Some(PlainPath(v)) =>
      Paths(seen) == [v] && RouteOf(services, v).Some? && known == cache + [RouteOf(services, v).value]
  }

  ghost predicate ScanSim(std: Standard, services: seq<Service>, cache: seq<Route>, known: seq<Route>, scan: Scan,
          p: Peer, seen: seq<Header>, strict: bool)
    requires ValidStandard(std)
  {
    && Sim(std, services, known, scan.st, p, strict)
    && PathSim(services, cache, known, scan.path, seen)
    && (strict ==> scan.encoding == EncodingIn(seen))
  }

  // ---------------------------------------------------------------- one field: the wire

  lemma IntAgrees(maxInt: nat, buf: seq<byte>, p: nat)
    requires maxInt <= MAX_BYTES && 1 <= p <= 8
    requires Int(maxInt, buf, p).Some?
    ensures IntResult(buf, p) == Ok(Int(maxInt, buf, p).value)
  {}

  lemma StrAgrees(maxInt: nat, buf: seq<byte>)
    requires maxInt <= MAX_BYTES && Str(maxInt, buf).Some?
    ensures StringResult(buf) == Ok(Str(maxInt, buf).value)
  {
    IntAgrees(maxInt, buf, 7);
  }

  lemma StringsAgree(maxInt: nat, buf: seq<byte>, indexing: bool, i: nat, n: nat)
    requires maxInt <= MAX_BYTES && 1 <= n <= |buf|
    requires LiteralText(maxInt, buf, indexing, i, n).Some?
    ensures LiteralStrings(buf, indexing, i, n) == Ok(LiteralText(maxInt, buf, indexing, i, n).value)
  {
    StrAgrees(maxInt, buf[n..]);
    if i == 0 {
      StrAgrees(maxInt, buf[n + Str(maxInt, buf[n..]).value.1..]);
    }
  }

  lemma LiteralAgrees(maxInt: nat, buf: seq<byte>, indexing: bool, p: nat)
    requires maxInt <= MAX_BYTES && p == if indexing then 6 else 4
    requires LiteralField(maxInt, buf, p, indexing).Some?
    ensures LiteralResult(buf, indexing) == Ok(LiteralField(maxInt, buf, p, indexing).value)
  {
    IntAgrees(maxInt, buf, p);
    var (i, n) := Int(maxInt, buf, p).value;
    StringsAgree(maxInt, buf, indexing, i, n);
  }

  /** Reading with seven bits of prefix takes one octet of every size update. */
  lemma SizeUpdateOctet(buf: seq<byte>)
    requires buf != [] && 32 <= buf[0] < 64
    ensures IntResult(buf, 7) == Ok((buf[0] as nat, 1))
  {
    assert Pow2(7) == 128;
  }

  /**
   The server takes a size update for what it is exactly when its value is below 31; otherwise it
   leaves the rest of the integer to be read as fields.
  */
  lemma SizeUpdateExact(maxInt: nat, buf: seq<byte>)
    requires buf != [] && 32 <= buf[0] < 64
    requires Int(maxInt, buf, 5).Some?
    ensures FieldResult(buf).Ok?
    ensures FieldResult(buf).value.1 == Int(maxInt, buf, 5).value.1 <==> Int(maxInt, buf, 5).value.0 < 31
    ensures Int(maxInt, buf, 5).value.0 < 31 <==> buf[0] != 0x3f
  {
    SizeUpdateOctet(buf);
    assert Pow2(5) == 32;
    assert buf[0] % 32 == buf[0] - 32;
  }

  lemma FieldAgrees(maxInt: nat, buf: seq<byte>)
    requires maxInt <= MAX_BYTES
    requires buf != [] && buf[0] != 0x3f && ParseField(maxInt, buf).Some?
    ensures FieldResult(buf).Ok?
    ensures var (f, n) := ParseField(maxInt, buf).value;
            var (g, m) := FieldResult(buf).value;
            n == m && (g == f || (f.SizeUpdate? && g.SizeUpdate?))
  {
    if buf[0] >= 128 {
      IntAgrees(maxInt, buf, 7);
    } else if buf[0] >= 64 {
      LiteralAgrees(maxInt, buf, true, 6);
    } else if buf[0] >= 32 {
      SizeUpdateExact(maxInt, buf);
    } else {
      LiteralAgrees(maxInt, buf, false, 4);
    }
  }

  // ---------------------------------------------------------------- one field: its effect

  lemma KnowsMore(services: seq<Service>, known: seq<Route>, more: seq<Route>, dynamic: seq<Entry>,
          table: seq<Header>, strict: bool)
    requires TableSim(services, known, dynamic, table, strict)
    ensures TableSim(services, known + more, dynamic, table, strict)
  {
    forall j | 0 <= j < |table|
      ensures EntrySim(services, known + more, Recent(dynamic, j), table[j], strict)
    {
      assert EntrySim(services, known, Recent(dynamic, j), table[j], strict);
    }
  }

  /** Never evicting is sound: what the reference table keeps is the recent part of ours. */
  lemma EvictSim(services: seq<Service>, known: seq<Route>, dynamic: seq<Entry>, table: seq<Header>, size: nat,
          strict: bool)
    requires TableSim(services, known, dynamic, table, strict)
    ensures TableSim(services, known, dynamic, Evict(table, size), strict)
  {
    var kept := Evict(table, size);
    forall j | 0 <= j < |kept|
      ensures EntrySim(services, known, Recent(dynamic, j), kept[j], strict)
    {
      assert kept[j] == table[j];
    }
  }

  lemma InsertSim(services: seq<Service>, known: seq<Route>, dynamic: seq<Entry>, p: Peer, e: Entry, h: Header,
          strict: bool)
    requires TableSim(services, known, dynamic, p.table, strict)
    requires EntrySim(services, known, e, h, strict)
    ensures TableSim(services, known, dynamic + [e], Insert(p, h).table, strict)
  {
    var grown := [h] + p.table;
    forall j | 0 <= j < |grown|
      ensures EntrySim(services, known, Recent(dynamic + [e], j), grown[j], strict)
    {
      if j > 0 {
        assert Recent(dynamic + [e], j) == Recent(dynamic, j - 1);
        assert EntrySim(services, known, Recent(dynamic, j - 1), p.table[j - 1], strict);
      }
    }
    EvictSim(services, known, dynamic + [e], grown, p.maxSize, strict);
  }

  lemma SeePath(seen: seq<Header>, h: Header)
    ensures Paths(seen + [h]) == Paths(seen) + (if h.name == PATH then [h.value] else [])
    ensures EncodingIn(seen + [h]) == EncodingFrom(h, EncodingIn(seen))
  {
    assert (seen + [h])[..|seen|] == seen;
  }

  /** An index below the static table's end or into the dynamic table selects the same entry. */
  lemma LookupAgrees(std: Standard, services: seq<Service>, known: seq<Route>, dynamic: seq<Entry>, p: Peer, i: nat,
          strict: bool)
    returns (e: Entry, h: Header)
    requires ValidStandard(std)
    requires TableSim(services, known, dynamic, p.table, strict)
    requires i > STATIC_LEN && Lookup(std.statics, p, i).Some?
    ensures i - STATIC_LEN <= |dynamic|
    ensures e == dynamic[STATIC_LEN + |dynamic| - i] && h == Lookup(std.statics, p, i).value
    ensures h == p.table[i - STATIC_LEN - 1]
    ensures EntrySim(services, known, e, h, strict)
  {
    var j := i - STATIC_LEN - 1;
    e, h := Recent(dynamic, j), p.table[j];
  }

  /** The kind of a header as the server sees it. */
  ghost predicate MatchSim(m: HeaderMatch, name: seq<byte>, value: OutStr, strict: bool, known: bool) {
    && (m.PathMatch? <==> name == PATH)
    && (strict && m.EncodingMatch? ==> name == GRPC_ENCODING)
    && (strict && known && name == GRPC_ENCODING ==> m.EncodingMatch?)
    && (m != NoMatch ==> m.value == value)
  }

  /** Comparing by encoding is right for names whose Huffman form is not longer. */
  lemma EqStrExact(code: Huffman.Code, text: OutStr, known: seq<byte>)
    requires Huffman.ValidCode(code) && |Huffman.Encoded(code, known)| <= |known|
    ensures EqStr(code, text, known) <==> Text(code, text) == Some(known)
  {
    EqStrIffText(code, text, known);
    if text.Huff? {
      NameIsShort(code, text.s, known);
    }
  }

  lemma MatchAgrees(std: Standard, services: seq<Service>, known: seq<Route>, dynamic: seq<Entry>, p: Peer, f: Field,
          strict: bool)
    requires ValidStandard(std) && NamesFit(std.huffman) && f.Literal?
    requires TableSim(services, known, dynamic, p.table, strict)
    requires NameText(std, p, f.name).Some?
    requires f.name != ByIndex(0)
    ensures var m := Match(std.huffman, dynamic, f.name, f.value);
            m.Ok? && MatchSim(m.value, NameText(std, p, f.name).value, f.value, strict, !OpaqueName(p, f))
  {
    match f.name
    case ByText(text) =>
      EqStrExact(std.huffman, text, PATH);
      EqStrExact(std.huffman, text, GRPC_ENCODING);
    case ByIndex(i) =>
      if i > STATIC_LEN {
        var e, h := LookupAgrees(std, services, known, dynamic, p, i, strict);
      }
  }

  lemma NameIsShort(code: Huffman.Code, x: seq<byte>, known: seq<byte>)
    requires Huffman.ValidCode(code) && |Huffman.Encoded(code, known)| <= |known|
    ensures HuffmanDecode.Decoded(code, x) == Some(known) ==> |x| <= |known|
  {
    HuffmanDecode.DecodeIffEncode(code, x, known);
  }

  /** The effect of a `:path` that is not in the cache yet: the caller will append its route. */
  lemma FreshPath(services: seq<Service>, cache: seq<Route>, path: Option<PathKind>, seen: seq<Header>, h: Header)
    requires PathSim(services, cache, cache, path, seen) && Paths(seen) == []
    requires h.name == PATH && RouteOf(services, h.value).Some?
    ensures var known' := cache + [RouteOf(services, h.value).value];
            && PathSim(services, cache, known', Some(PlainPath(h.value)), seen + [h])
            && Knows(services, known', |cache|, h.value)
  {
    SeePath(seen, h);
  }

  /**
   One literal with indexing. `known'` is the cache as it will be once the caller has appended
   the route of a fresh path.
  */
  lemma IndexingSim(std: Standard, services: seq<Service>, cache: seq<Route>, known: seq<Route>, scan: Scan, p: Peer,
                    seen: seq<Header>, m: HeaderMatch, value: OutStr, h: Header, strict: bool)
    returns (known': seq<Route>)
    requires ValidStandard(std)
    requires ScanSim(std, services, cache, known, scan, p, seen, strict)
    requires Text(std.huffman, value) == Some(h.value)
    requires MatchSim(m, h.name, value, strict, EncodingOf(h.value).Some?)
    requires h.name == PATH ==> Paths(seen) == [] && RouteOf(services, h.value).Some?
    ensures var r := ApplyIndexing(std.huffman, scan, m);
            r.Ok? && ScanSim(std, services, cache, known', r.value, Insert(p, h), seen + [h], strict)
  {
    SeePath(seen, h);
    var st := scan.st;
    known' := known;
    var e := Entry(None, None);
    match m {
      case PathMatch(_) =>
        known' := known + [RouteOf(services, h.value).value];
        FreshPath(services, cache, scan.path, seen, h);
        KnowsMore(services, known, [RouteOf(services, h.value).value], st.dynamic, p.table, strict);
        e := Entry(Some(st.next), None);
      case EncodingMatch(_) =>
        e := Entry(None, EncodingOf(h.value));
      case NoMatch =>
    }
    InsertSim(services, known', st.dynamic, p, e, h, strict);
  }

  /** A path in a wire form that is not in the maps. */
  lemma PlainFresh(std: Standard, services: seq<Service>, cache: seq<Route>, known: seq<Route>, scan: Scan, p: Peer,
                   seen: seq<Header>, value: OutStr, h: Header, strict: bool)
    requires ValidStandard(std)
    requires ScanSim(std, services, cache, known, scan, p, seen, strict)
    requires Text(std.huffman, value) == Some(h.value) && h.name == PATH
    requires Paths(seen) == [] && RouteOf(services, h.value).Some?
    requires match value case Plain(t) => t !in scan.st.plainPaths case Huff(x) => x !in scan.st.huffmanPaths
    ensures var r := ApplyPlain(std.huffman, scan, PathMatch(value));
            var known' := known + [RouteOf(services, h.value).value];
            r.Ok? && ScanSim(std, services, cache, known', r.value, p, seen + [h], strict)
  {
    SeePath(seen, h);
    FreshPath(services, cache, scan.path, seen, h);
    KnowsMore(services, known, [RouteOf(services, h.value).value], scan.st.dynamic, p.table, strict);
  }

  lemma PlainSim(std: Standard, services: seq<Service>, cache: seq<Route>, known: seq<Route>, scan: Scan, p: Peer,
                 seen: seq<Header>, m: HeaderMatch, value: OutStr, h: Header, strict: bool) returns (known': seq<Route>)
    requires ValidStandard(std)
    requires ScanSim(std, services, cache, known, scan, p, seen, strict)
    requires Text(std.huffman, value) == Some(h.value)
    requires MatchSim(m, h.name, value, strict, EncodingOf(h.value).Some?)
    requires h.name == PATH ==> Paths(seen) == [] && RouteOf(services, h.value).Some?
    ensures var r := ApplyPlain(std.huffman, scan, m);
            r.Ok? && ScanSim(std, services, cache, known', r.value, p, seen + [h], strict)
  {
    known' := known;
    var st := scan.st;
    if m.PathMatch? && (match value case Plain(t) => t !in st.plainPaths case Huff(x) => x !in st.huffmanPaths) {
      known' := known + [RouteOf(services, h.value).value];
      PlainFresh(std, services, cache, known, scan, p, seen, value, h, strict);
    } else {
      SeePath(seen, h);
    }
  }

  /** An index into the static table that is no path says nothing to either side. */
  lemma StaticSim(std: Standard, services: seq<Service>, cache: seq<Route>, known: seq<Route>, scan: Scan, p: Peer,
                  seen: seq<Header>, i: nat, strict: bool)
    requires ValidStandard(std) && 0 < i <= STATIC_LEN && i != 4 && i != 5
    requires ScanSim(std, services, cache, known, scan, p, seen, strict)
    ensures ScanSim(std, services, cache, known, scan, p, seen + [std.statics[i - 1]], strict)
  {
    var h := std.statics[i - 1];
    SeePath(seen, h);
    assert h.name != PATH && h.name != GRPC_ENCODING;
    assert Paths(seen + [h]) == Paths(seen);
  }

  /** A scan after an entry of the table. */
  function AfterEntry(scan: Scan, e: Entry): Scan {
    Found(if e.path.Some? then scan.(path := Some(Cached(e.path.value))) else scan, e.encoding)
  }

  lemma EntrySeen(std: Standard, services: seq<Service>, cache: seq<Route>, known: seq<Route>, scan: Scan, p: Peer,
                  seen: seq<Header>, e: Entry, h: Header, strict: bool)
    requires ValidStandard(std) && EntrySim(services, known, e, h, strict)
    requires ScanSim(std, services, cache, known, scan, p, seen, strict)
    requires h.name == PATH ==> Paths(seen) == [] && RouteOf(services, h.value).Some?
    ensures ScanSim(std, services, cache, known, AfterEntry(scan, e), p, seen + [h], strict)
  {
    SeePath(seen, h);
  }

  lemma IndexedSim(std: Standard, services: seq<Service>, cache: seq<Route>, known: seq<Route>, scan: Scan, p: Peer,
                   seen: seq<Header>, i: nat, h: Header, strict: bool)
    requires Setting(std)
    requires ScanSim(std, services, cache, known, scan, p, seen, strict)
    requires Lookup(std.statics, p, i) == Some(h) && i != 4 && i != 5
    requires h.name == PATH ==> Paths(seen) == [] && RouteOf(services, h.value).Some?
    ensures var r := ApplyField(std.huffman, scan, Indexed(i));
            r.Ok? && ScanSim(std, services, cache, known, r.value, p, seen + [h], strict)
  {
    if i > STATIC_LEN {
      var e, _ := LookupAgrees(std, services, known, scan.st.dynamic, p, i, strict);
      EntrySeen(std, services, cache, known, scan, p, seen, e, h, strict);
    } else {
      StaticSim(std, services, cache, known, scan, p, seen, i, strict);
    }
  }

  /** A header list goes on with at most one recognised path in all. */
  ghost predicate OneRoutedPath(services: seq<Service>, hs: seq<Header>) {
    |Paths(hs)| <= 1 && (Paths(hs) != [] ==> RouteOf(services, Paths(hs)[0]).Some?)
  }

  function Seen(seen: seq<Header>, h: Option<Header>): seq<Header> {
    match h
    case Some(x) => seen + [x]
    case None => seen
  }

  /** The paths of the static table are selected by one octet each. */
  lemma StaticPathOctet(maxInt: nat, buf: seq<byte>)
    requires buf != [] && ParseField(maxInt, buf).Some?
    ensures ParseField(maxInt, buf).value.0 == Indexed(4) <==> buf[0] == 0x84
    ensures ParseField(maxInt, buf).value.0 == Indexed(5) <==> buf[0] == 0x85
  {
    assert Pow2(7) == 128;
  }

  lemma LiteralSim(std: Standard, services: seq<Service>, cache: seq<Route>, known: seq<Route>, scan: Scan, p: Peer,
                   seen: seq<Header>, f: Field, strict: bool) returns (known': seq<Route>)
    requires Setting(std) && f.Literal? && f.name != ByIndex(0)
    requires ScanSim(std, services, cache, known, scan, p, seen, strict)
    requires strict ==> !Missed(std, p, f)
    requires Apply(std, p, f).Some? && OneRoutedPath(services, Seen(seen, Apply(std, p, f).value.1))
    ensures var (p', h) := Apply(std, p, f).value;
            var r := ApplyField(std.huffman, scan, f);
            r.Ok? && ScanSim(std, services, cache, known', r.value, p', Seen(seen, h), strict)
  {
    var h := Apply(std, p, f).value.1.value;
    SeePath(seen, h);
    MatchAgrees(std, services, known, scan.st.dynamic, p, f, strict);
    var m := Match(std.huffman, scan.st.dynamic, f.name, f.value).value;
    if f.indexing {
      known' := IndexingSim(std, services, cache, known, scan, p, seen, m, f.value, h, strict);
    } else {
      known' := PlainSim(std, services, cache, known, scan, p, seen, m, f.value, h, strict);
    }
  }

  lemma FieldSim(std: Standard, services: seq<Service>, cache: seq<Route>, known: seq<Route>, scan: Scan, p: Peer,
                 seen: seq<Header>, buf: seq<byte>, strict: bool) returns (known': seq<Route>)
    requires Setting(std)
    requires ScanSim(std, services, cache, known, scan, p, seen, strict)
    requires buf != [] && Tame(std, p, buf, strict) && ParseField(std.maxInt, buf).Some?
    requires var (f, n) := ParseField(std.maxInt, buf).value;
             Apply(std, p, f).Some? && OneRoutedPath(services, Seen(seen, Apply(std, p, f).value.1))
    ensures var (f, n) := ParseField(std.maxInt, buf).value;
            var (p', h) := Apply(std, p, f).value;
            var r := StepResult(std.huffman, scan, buf);
            r.Ok? && r.value.1 == n && ScanSim(std, services, cache, known', r.value.0, p', Seen(seen, h), strict)
  {
    FieldAgrees(std.maxInt, buf);
    StaticPathOctet(std.maxInt, buf);
    var (f, n) := ParseField(std.maxInt, buf).value;
    var (p', found) := Apply(std, p, f).value;
    known' := known;
    match f
    case SizeUpdate(size) =>
      EvictSim(services, known, scan.st.dynamic, p.table, size, strict);
    case Indexed(i) =>
      SeePath(seen, found.value);
      IndexedSim(std, services, cache, known, scan, p, seen, i, found.value, strict);
    case Literal(_, _, _) =>
      known' := LiteralSim(std, services, cache, known, scan, p, seen, f, strict);
  }

  // ---------------------------------------------------------------- blocks and runs

  lemma {:induction false} PathsAppend(a: seq<Header>, b: seq<Header>)
    ensures Paths(a + b) == Paths(a) + Paths(b)
    decreases |b|
  {
    if b == [] {
      assert a + b == a;
    } else {
      var b' := b[..|b| - 1];
      assert (a + b)[..|a + b| - 1] == a + b';
      PathsAppend(a, b');
      AppendAssoc(Paths(a), Paths(b'), if b[|b| - 1].name == PATH then [b[|b| - 1].value] else []);
    }
  }

  lemma SeenCons(seen: seq<Header>, h: Option<Header>, rest: seq<Header>)
    ensures Seen(seen, h) + rest == seen + Cons(h, rest)
  {}

  lemma {:induction false} BlockSim(std: Standard, services: seq<Service>, cache: seq<Route>, known: seq<Route>,
          scan: Scan, p: Peer, seen: seq<Header>, buf: seq<byte>, strict: bool)
    returns (known': seq<Route>)
    requires Setting(std)
    requires ScanSim(std, services, cache, known, scan, p, seen, strict)
    requires Tame(std, p, buf, strict) && DecodeBlock(std, p, buf).Some?
    requires OneRoutedPath(services, seen + DecodeBlock(std, p, buf).value.1)
    ensures var (p', rest) := DecodeBlock(std, p, buf).value;
            var r := ScanBlock(std.huffman, scan, buf);
            r.Ok? && ScanSim(std, services, cache, known', r.value, p', seen + rest, strict)
    decreases |buf|
  {
    if buf == [] {
      assert seen + [] == seen;
      known' := known;
    } else {
      var (f, n) := ParseField(std.maxInt, buf).value;
      var (p1, h) := Apply(std, p, f).value;
      var rest := DecodeBlock(std, p1, buf[n..]).value.1;
      SeenCons(seen, h, rest);
      PathsAppend(Seen(seen, h), rest);
      var known1 := FieldSim(std, services, cache, known, scan, p, seen, buf, strict);
      known' := BlockSim(std, services, cache, known1, StepResult(std.huffman, scan, buf).value.0, p1, Seen(seen, h),
        buf[n..], strict);
    }
  }

  /** A block whose header list the reference decoder accepts, with one path, which is routed. */
  ghost predicate GoodBlock(std: Standard, services: seq<Service>, p: Peer, block: seq<byte>, strict: bool)
    requires ValidStandard(std)
  {
    && Tame(std, p, block, strict)
    && DecodeBlock(std, p, block).Some?
    && var hs := DecodeBlock(std, p, block).value.1;
       |Paths(hs)| == 1 && RouteOf(services, Paths(hs)[0]).Some?
  }

  /**
   One request: the route from the cache is the first-match route of the path the reference
   decoder reads, and decoder and cache are in lockstep again.
  */
  lemma ResolveAgrees(std: Standard, services: seq<Service>, st: State, cache: seq<Route>, p: Peer, block: seq<byte>,
          strict: bool)
    requires Setting(std)
    requires Sim(std, services, cache, st, p, strict)
    requires GoodBlock(std, services, p, block, strict)
    ensures var (p', hs) := DecodeBlock(std, p, block).value;
            var r := ResolveResult(std.huffman, services, st, cache, block);
            && r.Ok?
            && Some(r.value.route) == RouteOf(services, Paths(hs)[0])
            && IsFirst(services, Paths(hs)[0], r.value.route)
            && Sim(std, services, r.value.cache, r.value.st, p', strict)
            && r.value.st.next == |r.value.cache|
            && (strict ==> r.value.encoding == EncodingIn(hs))
  {
    var hs := DecodeBlock(std, p, block).value.1;
    assert [] + hs == hs;
    var known := BlockSim(std, services, cache, cache, Start(st), p, [], block, strict);
    RouteIsFirst(services, Paths(hs)[0], RouteOf(services, Paths(hs)[0]).value);
  }

  /** What a connection has made of its header blocks: decoder and cache, and a route for each block. */
  datatype Served = Served(st: State, cache: seq<Route>, routes: seq<(Route, GrpcEncoding)>)

  function Serve(code: Huffman.Code, services: seq<Service>, blocks: seq<seq<byte>>): (r: Result<Served>)
    requires |code| == 257
    ensures r.Ok? ==> |r.value.routes| == |blocks|
    decreases |blocks|
  {
    if blocks == [] then Ok(Served(INITIAL, [], []))
    else
      var before :- Serve(code, services, blocks[..|blocks| - 1]);
      var r :- ResolveResult(code, services, before.st, before.cache, blocks[|blocks| - 1]);
      Ok(Served(r.st, r.cache, before.routes + [(r.route, r.encoding)]))
  }

  /** The same with header text: reference decoding and a linear search, no cache. */
  datatype Read = Read(peer: Peer, routes: seq<(Route, GrpcEncoding)>)

  function Reference(std: Standard, services: seq<Service>, blocks: seq<seq<byte>>): (r: Option<Read>)
    requires |std.huffman| == 257 && |std.statics| == STATIC_LEN
    ensures r.Some? ==> |r.value.routes| == |blocks|
    decreases |blocks|
  {
    if blocks == [] then Some(Read(EMPTY, []))
    else
      match Reference(std, services, blocks[..|blocks| - 1])
      case None => None
      case Some(Read(peer, routes)) =>
        match DecodeBlock(std, peer, blocks[|blocks| - 1])
        case None => None
        case Some((peer', hs)) =>
          if |Paths(hs)| != 1 then None
          else
            match RouteOf(services, Paths(hs)[0])
            case None => None
            case Some(route) => Some(Read(peer', routes + [(route, EncodingIn(hs))]))
  }

  ghost predicate AllTame(std: Standard, services: seq<Service>, blocks: seq<seq<byte>>, strict: bool)
    requires ValidStandard(std)
    decreases |blocks|
  {
    blocks != [] ==>
      var before := blocks[..|blocks| - 1];
      && AllTame(std, services, before, strict)
      && (Reference(std, services, before).Some? ==>
            Tame(std, Reference(std, services, before).value.peer, blocks[|blocks| - 1], strict))
  }

  /** The routes of two runs are alike, and so are the encodings if the names are not opaque. */
  ghost predicate SameRoutes(a: seq<(Route, GrpcEncoding)>, b: seq<(Route, GrpcEncoding)>, strict: bool) {
    && |a| == |b|
    && (forall i :: 0 <= i < |a| ==> a[i].0 == b[i].0)
    && (strict ==> a == b)
  }

  /** The path the standard reads in block i of a run that it reads. */
  function PathRead(std: Standard, services: seq<Service>, blocks: seq<seq<byte>>, i: nat): Option<seq<byte>>
    requires |std.huffman| == 257 && |std.statics| == STATIC_LEN && i < |blocks|
  {
    match Reference(std, services, blocks[..i])
    case None => None
    case Some(Read(peer, _)) =>
      match DecodeBlock(std, peer, blocks[i])
      case Some((_, hs)) => if |Paths(hs)| == 1 then Some(Paths(hs)[0]) else None
      case None => None
  }

  /** Every block has the first service with a method for the path that the standard reads in it. */
  ghost predicate AllFirst(std: Standard, services: seq<Service>, blocks: seq<seq<byte>>,
          routes: seq<(Route, GrpcEncoding)>)
    requires |std.huffman| == 257 && |std.statics| == STATIC_LEN && |routes| == |blocks|
  {
    forall i :: 0 <= i < |blocks| ==>
      && PathRead(std, services, blocks, i).Some?
      && IsFirst(services, PathRead(std, services, blocks, i).value, routes[i].0)
  }

  lemma EarlierPath(std: Standard, services: seq<Service>, blocks: seq<seq<byte>>, block: seq<byte>, i: nat)
    requires |std.huffman| == 257 && |std.statics| == STATIC_LEN && i < |blocks|
    ensures PathRead(std, services, blocks + [block], i) == PathRead(std, services, blocks, i)
  {
    var all := blocks + [block];
    assert all[..i] == blocks[..i] && all[i] == blocks[i];
  }

  lemma AllFirstSnoc(std: Standard, services: seq<Service>, blocks: seq<seq<byte>>, block: seq<byte>,
          routes: seq<(Route, GrpcEncoding)>, last: (Route, GrpcEncoding))
    requires |std.huffman| == 257 && |std.statics| == STATIC_LEN && |routes| == |blocks|
    requires AllFirst(std, services, blocks, routes)
    requires PathRead(std, services, blocks + [block], |blocks|).Some?
    requires IsFirst(services, PathRead(std, services, blocks + [block], |blocks|).value, last.0)
    ensures AllFirst(std, services, blocks + [block], routes + [last])
  {
    var all := blocks + [block];
    forall i | 0 <= i < |all|
      ensures PathRead(std, services, all, i).Some?
           && IsFirst(services, PathRead(std, services, all, i).value, (routes + [last])[i].0)
    {
      if i < |blocks| {
        EarlierPath(std, services, blocks, block, i);
        assert (routes + [last])[i] == routes[i];
      } else {
        assert i == |blocks| && (routes + [last])[i] == last;
      }
    }
  }

  /** What the standard reads of a run has these routes. */
  lemma {:induction false} ReferenceIsFirst(std: Standard, services: seq<Service>, blocks: seq<seq<byte>>)
    requires |std.huffman| == 257 && |std.statics| == STATIC_LEN && Reference(std, services, blocks).Some?
    ensures AllFirst(std, services, blocks, Reference(std, services, blocks).value.routes)
    decreases |blocks|
  {
    if blocks != [] {
      var before, last := blocks[..|blocks| - 1], blocks[|blocks| - 1];
      assert blocks == before + [last];
      ReferenceIsFirst(std, services, before);
      var hs := DecodeBlock(std, Reference(std, services, before).value.peer, last).value.1;
      var route := RouteOf(services, Paths(hs)[0]).value;
      RouteIsFirst(services, Paths(hs)[0], route);
      AllFirstSnoc(std, services, before, last, Reference(std, services, before).value.routes,
        (route, EncodingIn(hs)));
    }
  }

  /** Routes alone decide whether they are the first. */
  lemma SameAreFirst(std: Standard, services: seq<Service>, blocks: seq<seq<byte>>, a: seq<(Route, GrpcEncoding)>,
          b: seq<(Route, GrpcEncoding)>, strict: bool)
    requires |std.huffman| == 257 && |std.statics| == STATIC_LEN && |a| == |blocks| && SameRoutes(a, b, strict)
    requires AllFirst(std, services, blocks, b)
    ensures AllFirst(std, services, blocks, a)
  {}

  /**
   The route cache is transparent: over every run of header blocks of a connection, each with one
   recognised `:path`, the routes are those of reference decoding and linear search, and decoder
   and cache stay in lockstep. So are the encodings, if no name is that of an unknown encoding.
  */
  lemma CacheIsTransparent(std: Standard, services: seq<Service>, blocks: seq<seq<byte>>,
          strict: bool)
    requires Setting(std)
    requires AllTame(std, services, blocks, strict) && Reference(std, services, blocks).Some?
    ensures var served := Serve(std.huffman, services, blocks);
            var read := Reference(std, services, blocks).value;
            && served.Ok?
            && SameRoutes(served.value.routes, read.routes, strict)
            && AllFirst(std, services, blocks, served.value.routes)
            && Sim(std, services, served.value.cache, served.value.st, read.peer, strict)
            && served.value.st.next == |served.value.cache|
  {
    RoutesAgree(std, services, blocks, strict);
    ReferenceIsFirst(std, services, blocks);
    SameAreFirst(std, services, blocks, Serve(std.huffman, services, blocks).value.routes,
      Reference(std, services, blocks).value.routes, strict);
  }

  lemma {:induction false} RoutesAgree(std: Standard, services: seq<Service>, blocks: seq<seq<byte>>, strict: bool)
    requires Setting(std)
    requires AllTame(std, services, blocks, strict) && Reference(std, services, blocks).Some?
    ensures var served := Serve(std.huffman, services, blocks);
            var read := Reference(std, services, blocks).value;
            && served.Ok?
            && SameRoutes(served.value.routes, read.routes, strict)
            && Sim(std, services, served.value.cache, served.value.st, read.peer, strict)
            && served.value.st.next == |served.value.cache|
    decreases |blocks|
  {
    if blocks != [] {
      var before := blocks[..|blocks| - 1];
      RoutesAgree(std, services, before, strict);
      var served := Serve(std.huffman, services, before).value;
      ResolveAgrees(std, services, served.st, served.cache, Reference(std, services, before).value.peer,
        blocks[|blocks| - 1], strict);
    }
  }
}
