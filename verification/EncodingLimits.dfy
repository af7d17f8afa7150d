/**
 Which encoding the server finds in a request (pajamax/src/hpack_decoder.rs). It forgets the name of an
 entry whose `grpc-encoding` it does not know, so what it finds depends on how the peer names things.
*/
module EncodingLimits {
  import opened Wrappers
  import opened Bits
  import opened HpackReference
  import opened HpackDecoder
  import opened RouteCache
  import opened RouteLimits
  import Huffman

  /**
   What a peer can keep beside its table, newest entry first: whether the entry is blind, a `grpc-encoding`
   that the server does not take for one. It may be longer than the table.
  */
  type Marks = seq<bool>

  /** The name of a blind entry, by index. */
  predicate IsBlindName(p: Peer, marks: Marks, name: Name)
    requires |p.table| <= |marks|
  {
    name.ByIndex? && STATIC_LEN < name.i <= STATIC_LEN + |p.table| && marks[name.i - STATIC_LEN - 1]
  }

  /** A new entry is blind if its value is unknown, or its name that of a blind one. */
  function MarksAfter(std: Standard, p: Peer, marks: Marks, f: Field): Marks
    requires |std.huffman| == 257 && |std.statics| == STATIC_LEN && |p.table| <= |marks|
    requires Apply(std, p, f).Some?
  {
    match f
    case Literal(true, name, _) =>
      var h := Apply(std, p, f).value.1.value;
      [h.name == GRPC_ENCODING && (EncodingOf(h.value).None? || IsBlindName(p, marks, name))] + marks
    case _ => marks
  }

  /** A field that is an entry, or takes its name from one, which is blind. */
  predicate IsBlind(p: Peer, marks: Marks, f: Field)
    requires |p.table| <= |marks|
  {
    match f
    case Indexed(i) => STATIC_LEN < i <= STATIC_LEN + |p.table| && marks[i - STATIC_LEN - 1]
    case Literal(_, name, _) => IsBlindName(p, marks, name)
    case SizeUpdate(_) => false
  }

  /** The encoding that is seen, and whether the one that is meant is lost. */
  datatype Sight = Sight(encoding: GrpcEncoding, lost: bool)

  /** A recognised encoding is seen, or it is blind, and lost unless it was in force before. */
  function See(h: Header, blind: bool, before: Sight): Sight {
    match Meant(h)
    case None => before
    case Some(e) => if blind then before.(lost := e != before.encoding) else Sight(e, false)
  }

  function SightAfter(std: Standard, p: Peer, marks: Marks, f: Field, before: Sight): Sight
    requires |std.huffman| == 257 && |std.statics| == STATIC_LEN && |p.table| <= |marks|
    requires Apply(std, p, f).Some?
  {
    match Apply(std, p, f).value.1
    case None => before
    case Some(h) => See(h, IsBlind(p, marks, f), before)
  }

  lemma MarksSuffice(std: Standard, p: Peer, marks: Marks, f: Field)
    requires |std.huffman| == 257 && |std.statics| == STATIC_LEN && |p.table| <= |marks|
    requires Apply(std, p, f).Some?
    ensures |Apply(std, p, f).value.0.table| <= |MarksAfter(std, p, marks, f)|
  {}

  /** Both along a block that the standard reads. */
  function SightOf(std: Standard, p: Peer, marks: Marks, buf: seq<byte>, before: Sight): (Sight, Marks)
    requires |std.huffman| == 257 && |std.statics| == STATIC_LEN && |p.table| <= |marks|
    decreases |buf|
  {
    if buf == [] || ParseField(std.maxInt, buf).None? then (before, marks)
    else
      var (f, n) := ParseField(std.maxInt, buf).value;
      if Apply(std, p, f).None? then (before, marks)
      else
        MarksSuffice(std, p, marks, f);
        SightOf(std, Apply(std, p, f).value.0, MarksAfter(std, p, marks, f), buf[n..],
          SightAfter(std, p, marks, f, before))
  }

  // ---------------------------------------------------------------- the server against the marks

  /** What the server remembers of an entry. */
  ghost predicate EntryMarked(e: Entry, h: Header, blind: bool) {
    && e.encoding == (if blind then None else Meant(h))
    && (h.name == GRPC_ENCODING && !blind ==> Meant(h).Some?)
  }

  ghost predicate TableMarked(dynamic: seq<Entry>, table: seq<Header>, marks: Marks) {
    && |table| <= |dynamic| && |table| <= |marks|
    && forall j :: 0 <= j < |table| ==> EntryMarked(Recent(dynamic, j), table[j], marks[j])
  }

  lemma EvictMarked(dynamic: seq<Entry>, table: seq<Header>, marks: Marks, size: nat)
    requires TableMarked(dynamic, table, marks)
    ensures TableMarked(dynamic, Evict(table, size), marks)
  {
    var kept := Evict(table, size);
    forall j | 0 <= j < |kept| ensures EntryMarked(Recent(dynamic, j), kept[j], marks[j]) {
      assert kept[j] == table[j];
    }
  }

  lemma InsertMarked(dynamic: seq<Entry>, p: Peer, marks: Marks, e: Entry, h: Header, blind: bool)
    requires TableMarked(dynamic, p.table, marks) && EntryMarked(e, h, blind)
    ensures TableMarked(dynamic + [e], Insert(p, h).table, [blind] + marks)
  {
    var grown := [h] + p.table;
    forall j | 0 <= j < |grown| ensures EntryMarked(Recent(dynamic + [e], j), grown[j], ([blind] + marks)[j]) {
      if j > 0 {
        assert Recent(dynamic + [e], j) == Recent(dynamic, j - 1);
        assert EntryMarked(Recent(dynamic, j - 1), p.table[j - 1], marks[j - 1]);
      }
    }
    EvictMarked(dynamic + [e], grown, [blind] + marks, p.maxSize);
  }

  /** A literal is seen as the encoding it is if and only if its name is not that of a blind entry. */
  lemma MarkedMatch(std: Standard, services: seq<Service>, known: seq<Route>, dynamic: seq<Entry>, p: Peer,
          marks: Marks, f: Field)
    requires ValidStandard(std) && NamesFit(std.huffman) && f.Literal? && f.name != ByIndex(0)
    requires TableSim(services, known, dynamic, p.table, false) && TableMarked(dynamic, p.table, marks)
    requires NameText(std, p, f.name).Some?
    ensures var m, name := Match(std.huffman, dynamic, f.name, f.value), NameText(std, p, f.name).value;
            && m.Ok?
            && (m.value.PathMatch? <==> name == PATH)
            && (m.value.EncodingMatch? <==> name == GRPC_ENCODING && !IsBlindName(p, marks, f.name))
            && (m.value != NoMatch ==> m.value.value == f.value)
  {
    MatchAgrees(std, services, known, dynamic, p, f, false);
    NamesDiffer();
    match f.name
    case ByText(text) =>
      EqStrExact(std.huffman, text, GRPC_ENCODING);
    case ByIndex(i) =>
      if i > STATIC_LEN {
        var e, h := LookupAgrees(std, services, known, dynamic, p, i, false);
        assert EntryMarked(Recent(dynamic, i - STATIC_LEN - 1), p.table[i - STATIC_LEN - 1], marks[i - STATIC_LEN - 1]);
      }
  }

  lemma MarkedLiteral(std: Standard, services: seq<Service>, known: seq<Route>, scan: Scan, p: Peer, marks: Marks,
          f: Field, sight: Sight)
    requires Setting(std) && f.Literal? && f.name != ByIndex(0)
    requires TableSim(services, known, scan.st.dynamic, p.table, false) && TableMarked(scan.st.dynamic, p.table, marks)
    requires Apply(std, p, f).Some? && ApplyField(std.huffman, scan, f).Ok?
    ensures var after := ApplyField(std.huffman, scan, f).value;
            && TableMarked(after.st.dynamic, Apply(std, p, f).value.0.table, MarksAfter(std, p, marks, f))
            && (scan.encoding == sight.encoding ==> after.encoding == SightAfter(std, p, marks, f, sight).encoding)
  {
    MarkedMatch(std, services, known, scan.st.dynamic, p, marks, f);
    NamesDiffer();
    var h := Apply(std, p, f).value.1.value;
    if f.indexing {
      var blind := h.name == GRPC_ENCODING && (EncodingOf(h.value).None? || IsBlindName(p, marks, f.name));
      var e := Entry(if h.name == PATH then Some(scan.st.next) else None, if blind then None else Meant(h));
      InsertMarked(scan.st.dynamic, p, marks, e, h, blind);
    }
  }

  lemma MarkedIndex(std: Standard, scan: Scan, p: Peer, marks: Marks, i: nat, sight: Sight)
    requires ValidStandard(std) && scan.encoding == sight.encoding && TableMarked(scan.st.dynamic, p.table, marks)
    requires Apply(std, p, Indexed(i)).Some? && ApplyField(std.huffman, scan, Indexed(i)).Ok?
    ensures ApplyField(std.huffman, scan, Indexed(i)).value.encoding ==
            SightAfter(std, p, marks, Indexed(i), sight).encoding
  {
    if i > STATIC_LEN {
      var j := i - STATIC_LEN - 1;
      assert EntryMarked(Recent(scan.st.dynamic, j), p.table[j], marks[j]);
    }
  }

  /** One field keeps what the server remembers, and the encoding it has found. */
  lemma MarkedField(std: Standard, services: seq<Service>, known: seq<Route>, scan: Scan, p: Peer, marks: Marks,
          buf: seq<byte>, sight: Sight)
    requires Setting(std) && scan.encoding == sight.encoding
    requires buf != [] && buf[0] != 0x3f && ParseField(std.maxInt, buf).Some?
    requires TableSim(services, known, scan.st.dynamic, p.table, false) && TableMarked(scan.st.dynamic, p.table, marks)
    requires var f := ParseField(std.maxInt, buf).value.0;
             Apply(std, p, f).Some? && StepResult(std.huffman, scan, buf).Ok?
    ensures var f := ParseField(std.maxInt, buf).value.0;
            var after := StepResult(std.huffman, scan, buf).value.0;
            && TableMarked(after.st.dynamic, Apply(std, p, f).value.0.table, MarksAfter(std, p, marks, f))
            && after.encoding == SightAfter(std, p, marks, f, sight).encoding
  {
    FieldAgrees(std.maxInt, buf);
    var f := ParseField(std.maxInt, buf).value.0;
    match f
    case SizeUpdate(size) => EvictMarked(scan.st.dynamic, p.table, marks, size);
    case Indexed(i) => MarkedIndex(std, scan, p, marks, i, sight);
    case Literal(_, _, _) => MarkedLiteral(std, services, known, scan, p, marks, f, sight);
  }

  /** What a sight says of the headers seen. */
  ghost predicate SightSim(sight: Sight, seen: seq<Header>) {
    sight.lost <==> sight.encoding != EncodingIn(seen)
  }

  lemma SightMeans(h: Header, blind: bool, sight: Sight, seen: seq<Header>)
    requires SightSim(sight, seen)
    ensures SightSim(See(h, blind, sight), seen + [h])
  {
    SeePath(seen, h);
  }

  lemma {:induction false} MarkedBlock(std: Standard, services: seq<Service>, cache: seq<Route>, known: seq<Route>,
          scan: Scan, p: Peer, seen: seq<Header>, marks: Marks, buf: seq<byte>, sight: Sight)
    requires Setting(std) && TableMarked(scan.st.dynamic, p.table, marks)
    requires scan.encoding == sight.encoding && SightSim(sight, seen)
    requires ScanSim(std, services, cache, known, scan, p, seen, false)
    requires Tame(std, p, buf, false) && DecodeBlock(std, p, buf).Some?
    requires OneRoutedPath(services, seen + DecodeBlock(std, p, buf).value.1)
    ensures ScanBlock(std.huffman, scan, buf).Ok?
    ensures var after := ScanBlock(std.huffman, scan, buf).value;
            var (p', rest) := DecodeBlock(std, p, buf).value;
            var (sight', marks') := SightOf(std, p, marks, buf, sight);
            && after.encoding == sight'.encoding && SightSim(sight', seen + rest)
            && TableMarked(after.st.dynamic, p'.table, marks')
    decreases |buf|
  {
    if buf == [] {
      assert seen + [] == seen;
    } else {
      var (f, n) := ParseField(std.maxInt, buf).value;
      var (p1, h) := Apply(std, p, f).value;
      var rest := DecodeBlock(std, p1, buf[n..]).value.1;
      SeenCons(seen, h, rest);
      PathsAppend(Seen(seen, h), rest);
      var known1 := FieldSim(std, services, cache, known, scan, p, seen, buf, false);
      MarkedField(std, services, known, scan, p, marks, buf, sight);
      if h.Some? {
        SightMeans(h.value, IsBlind(p, marks, f), sight, seen);
      }
      MarkedBlock(std, services, cache, known1, StepResult(std.huffman, scan, buf).value.0, p1, Seen(seen, h),
        MarksAfter(std, p, marks, f), buf[n..], SightAfter(std, p, marks, f, sight));
    }
  }

  /** A request has the encoding and the table of the scan of its block. */
  lemma ResolvedIsScanned(code: Huffman.Code, services: seq<Service>, st: State, cache: seq<Route>, block: seq<byte>)
    requires |code| == 257 && ResolveResult(code, services, st, cache, block).Ok?
    ensures ScanBlock(code, Start(st), block).Ok?
    ensures var r := ResolveResult(code, services, st, cache, block).value;
            var scan := ScanBlock(code, Start(st), block).value;
            r.encoding == scan.encoding && r.st == scan.st
  {}

  /** Marks and sight after a block, of any scan from a table that is marked. */
  lemma MarkedRequest(std: Standard, services: seq<Service>, st: State, cache: seq<Route>, p: Peer, marks: Marks,
          block: seq<byte>)
    requires Setting(std) && Sim(std, services, cache, st, p, false) && TableMarked(st.dynamic, p.table, marks)
    requires GoodBlock(std, services, p, block, false)
    ensures ScanBlock(std.huffman, Start(st), block).Ok?
    ensures var scan := ScanBlock(std.huffman, Start(st), block).value;
            var (p', hs) := DecodeBlock(std, p, block).value;
            var (sight, marks') := SightOf(std, p, marks, block, NOTHING);
            && scan.encoding == sight.encoding && SightSim(sight, hs) && TableMarked(scan.st.dynamic, p'.table, marks')
  {
    var hs := DecodeBlock(std, p, block).value.1;
    assert [] + hs == hs;
    MarkedBlock(std, services, cache, cache, Start(st), p, [], marks, block, NOTHING);
  }

  const NOTHING: Sight := Sight(Identity, false)

  /**
   The encoding found in a request is the one that is meant if and only if it is not lost: the last
   recognised one was seen, or is the one seen before it. The marks go on to the next request.
  */
  lemma RequestEncodingExact(std: Standard, services: seq<Service>, st: State, cache: seq<Route>, p: Peer, marks: Marks,
          block: seq<byte>)
    requires Setting(std) && Sim(std, services, cache, st, p, false) && TableMarked(st.dynamic, p.table, marks)
    requires GoodBlock(std, services, p, block, false)
    ensures ResolveResult(std.huffman, services, st, cache, block).Ok?
    ensures var r := ResolveResult(std.huffman, services, st, cache, block).value;
            var (p', hs) := DecodeBlock(std, p, block).value;
            var (sight, marks') := SightOf(std, p, marks, block, NOTHING);
            && r.encoding == sight.encoding && (r.encoding == EncodingIn(hs) <==> !sight.lost)
            && TableMarked(r.st.dynamic, p'.table, marks')
  {
    ResolveAgrees(std, services, st, cache, p, block, false);
    MarkedRequest(std, services, st, cache, p, marks, block);
    ResolvedIsScanned(std.huffman, services, st, cache, block);
  }

  /** A header asks for an encoding, and none behind it asks for one. */
  ghost predicate AsksLast(hs: seq<Header>, i: nat, e: GrpcEncoding) {
    && i < |hs| && Meant(hs[i]) == Some(e)
    && forall j :: i < j < |hs| ==> Meant(hs[j]) == None
  }

  ghost predicate NoneAsks(hs: seq<Header>) {
    forall j :: 0 <= j < |hs| ==> Meant(hs[j]) == None
  }

  /** The encoding meant is the last one asked for, and none if there is none. */
  lemma {:induction false} EncodingIsLast(hs: seq<Header>, e: GrpcEncoding)
    ensures EncodingIn(hs) == e <==> (exists i: nat :: AsksLast(hs, i, e)) || (e == Identity && NoneAsks(hs))
    decreases |hs|
  {
    if hs != [] {
      var before, last := hs[..|hs| - 1], hs[|hs| - 1];
      assert hs == before + [last];
      EncodingIsLast(before, e);
      AsksSnoc(before, last, e);
    }
  }

  lemma AsksSnoc(before: seq<Header>, last: Header, e: GrpcEncoding)
    ensures var all := before + [last];
            && ((exists i: nat :: AsksLast(all, i, e)) <==>
                  Meant(last) == Some(e) || (Meant(last) == None && exists i: nat :: AsksLast(before, i, e)))
            && (NoneAsks(all) <==> Meant(last) == None && NoneAsks(before))
  {
    var all := before + [last];
    assert all[|before|] == last && forall j :: 0 <= j < |before| ==> all[j] == before[j];
    if i: nat :| AsksLast(all, i, e) && i < |before| {
      assert Meant(all[|before|]) == None && AsksLast(before, i, e);
    }
    if Meant(last) == Some(e) {
      assert AsksLast(all, |before|, e);
    } else if i: nat :| Meant(last) == None && AsksLast(before, i, e) {
      assert AsksLast(all, i, e);
    }
  }

  // ---------------------------------------------------------------- whole runs

  /** The marks of a peer after a run of blocks, and what is seen of each. */
  function SightsOf(std: Standard, services: seq<Service>, blocks: seq<seq<byte>>): (r: (Marks, seq<Sight>))
    requires |std.huffman| == 257 && |std.statics| == STATIC_LEN
    ensures |r.1| == |blocks|
    decreases |blocks|
  {
    if blocks == [] then ([], [])
    else
      var (marks, sights) := SightsOf(std, services, blocks[..|blocks| - 1]);
      match Reference(std, services, blocks[..|blocks| - 1])
      case Some(Read(p, _)) =>
        if |p.table| <= |marks| then
          var (sight, marks') := SightOf(std, p, marks, blocks[|blocks| - 1], NOTHING);
          (marks', sights + [sight])
        else (marks, sights + [NOTHING])
      case None => (marks, sights + [NOTHING])
  }

  /**
   Over every run of blocks, the encoding of a request is the one its peer meant if and only if that is
   not lost by way of a blind entry.
  */
  lemma {:induction false} EncodingsExact(std: Standard, services: seq<Service>, blocks: seq<seq<byte>>)
    requires Setting(std)
    requires AllTame(std, services, blocks, false) && Reference(std, services, blocks).Some?
    ensures Serve(std.huffman, services, blocks).Ok?
    ensures var served := Serve(std.huffman, services, blocks).value;
            var read := Reference(std, services, blocks).value;
            var (marks, sights) := SightsOf(std, services, blocks);
            && TableMarked(served.st.dynamic, read.peer.table, marks)
            && forall i :: 0 <= i < |blocks| ==> (served.routes[i].1 == read.routes[i].1 <==> !sights[i].lost)
    decreases |blocks|
  {
    if blocks != [] {
      var before := blocks[..|blocks| - 1];
      EncodingsExact(std, services, before);
      CacheIsTransparent(std, services, before, false);
      var served := Serve(std.huffman, services, before).value;
      var p := Reference(std, services, before).value.peer;
      RequestEncodingExact(std, services, served.st, served.cache, p, SightsOf(std, services, before).0,
        blocks[|blocks| - 1]);
    }
  }
}
