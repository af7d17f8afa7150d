/**
 A connection as its peer sees it: what became of every stream the peer named, with all the octets
 it sent there. There is no stream table, queue, cache or decoder in it. The server agrees with
 this ledger over every run of frames.
*/
module Ledger {
  import opened Wrappers
  import opened Bits
  import opened Http2
  import opened RouteCache
  import opened Frames
  import HpackDecoder

  /** A stream's header block is number `k` of the connection; a dispatch without DATA has no body. */
  datatype Stage =
    | Awaiting(end: bool, block: seq<byte>)
    | Open(k: nat, body: seq<byte>)
    | Dispatched(k: nat, sent: Option<seq<byte>>)
    | Cancelled
    | Refused

  /** `done` lists the dispatched streams in order, `replies` the octets owed for control frames. */
  datatype Ledger = Ledger(stages: map<nat, Stage>, blocks: seq<seq<byte>>, done: seq<nat>, replies: seq<seq<byte>>)

  const BLANK: Ledger := Ledger(map[], [], [], [])

  function At(l: Ledger, id: nat): Option<Stage> {
    if id in l.stages then Some(l.stages[id]) else None
  }

  ghost function OpenIds(l: Ledger): set<nat> {
    set id | id in l.stages && l.stages[id].Open?
  }

  // ---------------------------------------------------------------- what a frame does to a stream

  function Put(l: Ledger, id: nat, stage: Stage): Ledger {
    var stages := l.stages[id := stage];
    if stage.Dispatched? then l.(stages := stages, done := l.done + [id]) else l.(stages := stages)
  }

  function Answer(l: Ledger, reply: seq<byte>): Ledger {
    l.(replies := l.replies + [reply])
  }

  /** A complete header block, which ends the request or opens the stream. */
  function Begin(l: Ledger, id: nat, end: bool, block: seq<byte>): Ledger {
    var k := |l.blocks|;
    Put(l.(blocks := l.blocks + [block]), id, if end then Dispatched(k, None) else Open(k, []))
  }

  /** DATA for an open stream; other DATA is dropped. */
  function Receive(l: Ledger, id: nat, content: seq<byte>, end: bool): Ledger {
    match At(l, id)
    case Some(Open(k, body)) =>
      Put(l, id, if end then Dispatched(k, Some(body + content)) else Open(k, body + content))
    case _ => l
  }

  ghost function Ask(max: nat, l: Ledger, f: Frame): Ledger {
    if |OpenIds(l)| >= max then Put(Answer(l, RstBytes(f.id)), f.id, Refused)
    else
      match BlockIn(f)
      case Some(block) =>
        if IsEndHeaders(f.flags) then Begin(l, f.id, IsEndStream(f.flags), block)
        else Put(l, f.id, Awaiting(IsEndStream(f.flags), block))
      case None => l
  }

  ghost function Record(max: nat, l: Ledger, f: Frame): Ledger {
    match f.kind
    case Data => (
      match ContentOf(f)
      case Some(content) => Receive(l, f.id, content, IsEndStream(f.flags))
      case None => l
    )
    case Headers => Ask(max, l, f)
    case Continuation => (
      match At(l, f.id)
      case Some(Awaiting(end, block)) =>
        if IsEndHeaders(f.flags) then Begin(l, f.id, end, block + f.payload)
        else Put(l, f.id, Awaiting(end, block + f.payload))
      case _ => l
    )
    case Reset => if f.id in OpenIds(l) then Put(l, f.id, Cancelled) else l
    case Settings => if IsAck(f.flags) then l else Answer(l, SettingsAckBytes())
    case Ping => if IsAck(f.flags) then l else Answer(l, PingAckBytes(f.payload))
    case _ => l
  }

  // ---------------------------------------------------------------- the server agrees with it

  /** A call has the route of its header block and the message of its octets. */
  ghost predicate CallFits(cfg: Config, routes: seq<(Route, HpackDecoder.GrpcEncoding)>, stage: Option<Stage>,
          c: Call) {
    && stage.Some? && stage.value.Dispatched? && stage.value.k < |routes|
    && var (route, encoding) := routes[stage.value.k];
       && (c.isvc, c.disc) == route
       && match stage.value.sent
          case None => c.msg == []
          case Some(body) => DecodeMessage(cfg, body, encoding) == Ok(c.msg)
  }

  ghost predicate StreamFits(routes: seq<(Route, HpackDecoder.GrpcEncoding)>, stage: Option<Stage>, s: Stream) {
    && stage.Some? && stage.value.Open? && stage.value.k < |routes|
    && stage.value.body == s.data
    && routes[stage.value.k] == ((s.isvc, s.disc), s.encoding)
  }

  ghost function Ids(streams: seq<Stream>): set<nat> {
    set i | 0 <= i < |streams| :: streams[i].id
  }

  /** The ids of the table increase, so they are distinct. */
  ghost predicate Increasing(streams: seq<Stream>) {
    forall i, j :: 0 <= i < j < |streams| ==> streams[i].id < streams[j].id
  }

  ghost predicate StreamsAgree(streams: seq<Stream>, routes: seq<(Route, HpackDecoder.GrpcEncoding)>, l: Ledger) {
    && Increasing(streams)
    && Ids(streams) == OpenIds(l)
    && forall i :: 0 <= i < |streams| ==> StreamFits(routes, At(l, streams[i].id), streams[i])
  }

  ghost predicate Distinct(ids: seq<nat>) {
    forall i, j :: 0 <= i < j < |ids| ==> ids[i] != ids[j]
  }

  /** Every dispatched stream has exactly one call, in the order of dispatch. */
  ghost predicate CallsAgree(cfg: Config, calls: seq<Call>, routes: seq<(Route, HpackDecoder.GrpcEncoding)>,
          l: Ledger) {
    && |calls| == |l.done|
    && Distinct(l.done)
    && (forall i :: 0 <= i < |calls| ==> calls[i].id == l.done[i] && CallFits(cfg, routes, At(l, l.done[i]), calls[i]))
    && (forall id :: id in l.stages && l.stages[id].Dispatched? ==> id in l.done)
  }

  /** At most one stream waits for CONTINUATION, and it is the newest. */
  ghost predicate PendingAgrees(cont: Option<Pending>, last: nat, l: Ledger) {
    && (forall id :: id in l.stages && l.stages[id].Awaiting? ==> cont.Some? && cont.value.id == id)
    && (cont.Some? ==> cont.value.id == last && At(l, last) == Some(Awaiting(cont.value.end, cont.value.block)))
  }

  /** There is room in the table, also for the stream that waits. */
  ghost predicate Room(streams: seq<Stream>, cont: Option<Pending>, max: nat) {
    |streams| + (if cont.Some? then 1 else 0) <= max
  }

  /** The routes of the header blocks so far. */
  ghost function Routes(cfg: Config, l: Ledger): (r: seq<(Route, HpackDecoder.GrpcEncoding)>)
    requires |cfg.code| == 257
  {
    match Serve(cfg.code, cfg.services, l.blocks)
    case Ok(served) => served.routes
    case _ => []
  }

  /** Decoder and cache are what the header blocks of the ledger make of them. */
  ghost predicate RouterAgrees(cfg: Config, dec: HpackDecoder.State, cache: seq<Route>, l: Ledger)
    requires |cfg.code| == 257
  {
    match Serve(cfg.code, cfg.services, l.blocks)
    case Ok(served) => served.st == dec && served.cache == cache
    case _ => false
  }

  ghost predicate Known(l: Ledger, last: nat) {
    forall id :: id in l.stages ==> id % 2 == 1 && id <= last
  }

  /** The server's state is the one the ledger accounts for. */
  ghost predicate Agrees(cfg: Config, core: Core, l: Ledger)
    requires |cfg.code| == 257
  {
    && RouterAgrees(cfg, core.dec, core.cache, l)
    && StreamsAgree(core.streams, Routes(cfg, l), l)
    && CallsAgree(cfg, core.calls, Routes(cfg, l), l)
    && PendingAgrees(core.cont, core.last, l)
    && Room(core.streams, core.cont, cfg.maxStreams)
    && Known(l, core.last)
    && core.writes == l.replies
  }

  // ---------------------------------------------------------------- the table as a set of ids

  lemma FindIsMember(streams: seq<Stream>, id: nat)
    ensures Find(streams, id).Some? <==> id in Ids(streams)
  {}

  lemma IdsGrow(streams: seq<Stream>, s: Stream)
    ensures Ids(streams + [s]) == Ids(streams) + {s.id}
  {
    var t := streams + [s];
    assert forall i :: 0 <= i < |streams| ==> t[i] == streams[i];
    assert t[|streams|] == s;
    forall id | id in Ids(streams) + {s.id} ensures id in Ids(t) {
      if id in Ids(streams) {
        var i :| 0 <= i < |streams| && streams[i].id == id;
        assert t[i].id == id;
      }
    }
  }

  lemma IdsShrink(streams: seq<Stream>, i: nat)
    requires i < |streams| && Increasing(streams)
    ensures Ids(Remove(streams, i)) == Ids(streams) - {streams[i].id}
    ensures Increasing(Remove(streams, i))
  {
    var t := Remove(streams, i);
    forall id | id in Ids(streams) - {streams[i].id} ensures id in Ids(t) {
      var j :| 0 <= j < |streams| && streams[j].id == id;
      assert t[if j < i then j else j - 1].id == id;
    }
    forall id | id in Ids(t) ensures id in Ids(streams) - {streams[i].id} {
      var j :| 0 <= j < |t| && t[j].id == id;
      assert streams[if j < i then j else j + 1].id == id;
    }
  }

  lemma {:induction false} IdsCount(streams: seq<Stream>)
    requires Increasing(streams)
    ensures |Ids(streams)| == |streams|
    decreases |streams|
  {
    if streams != [] {
      var n := |streams| - 1;
      IdsCount(streams[..n]);
      IdsGrow(streams[..n], streams[n]);
      assert streams[..n] + [streams[n]] == streams;
    }
  }

  // ---------------------------------------------------------------- one stream at a time

  type Routed = seq<(Route, HpackDecoder.GrpcEncoding)>

  lemma StreamGrows(streams: seq<Stream>, routes: Routed, l: Ledger, i: nat, data: seq<byte>)
    requires StreamsAgree(streams, routes, l) && i < |streams|
    ensures At(l, streams[i].id).Some? && l.stages[streams[i].id].Open?
    ensures StreamsAgree(streams[i := streams[i].(data := data)], routes,
            Put(l, streams[i].id, Open(l.stages[streams[i].id].k, data)))
  {
    var s := streams[i];
    assert StreamFits(routes, At(l, s.id), s);
    var l' := Put(l, s.id, Open(l.stages[s.id].k, data));
    var t := streams[i := s.(data := data)];
    assert forall j :: 0 <= j < |t| ==> t[j].id == streams[j].id;
    assert Ids(t) == Ids(streams);
    assert s.id in OpenIds(l);
    assert OpenIds(l') == OpenIds(l);
  }

  lemma StreamLeaves(streams: seq<Stream>, routes: Routed, l: Ledger, i: nat, stage: Stage)
    requires StreamsAgree(streams, routes, l) && i < |streams| && !stage.Open?
    ensures StreamsAgree(Remove(streams, i), routes, Put(l, streams[i].id, stage))
  {
    IdsShrink(streams, i);
    var id := streams[i].id;
    var t := Remove(streams, i);
    assert OpenIds(Put(l, id, stage)) == OpenIds(l) - {id};
    forall j | 0 <= j < |t| ensures StreamFits(routes, At(Put(l, id, stage), t[j].id), t[j]) {
      var j' := if j < i then j else j + 1;
      assert t[j] == streams[j'];
      assert StreamFits(routes, At(l, streams[j'].id), streams[j']);
    }
  }

  lemma StreamEnters(streams: seq<Stream>, routes: Routed, l: Ledger, s: Stream,
          route: (Route, HpackDecoder.GrpcEncoding))
    requires StreamsAgree(streams, routes, l)
    requires s.data == [] && route == ((s.isvc, s.disc), s.encoding)
    requires forall id :: id in OpenIds(l) ==> id < s.id
    ensures StreamsAgree(streams + [s], routes + [route], Put(l, s.id, Open(|routes|, [])))
  {
    IdsGrow(streams, s);
    var t := streams + [s];
    assert forall j :: 0 <= j < |streams| ==> streams[j].id in Ids(streams);
    assert OpenIds(Put(l, s.id, Open(|routes|, []))) == OpenIds(l) + {s.id};
    forall j | 0 <= j < |t| ensures StreamFits(routes + [route], At(Put(l, s.id, Open(|routes|, [])), t[j].id), t[j]) {
      if j < |streams| {
        assert StreamFits(routes, At(l, streams[j].id), streams[j]);
      }
    }
  }

  /** A stream that is not in the table changes its stage; `more` may hold the route of a new block. */
  lemma StreamsStay(streams: seq<Stream>, routes: Routed, more: Routed, l: Ledger, id: nat, stage: Stage)
    requires StreamsAgree(streams, routes, l) && id !in OpenIds(l) && !stage.Open?
    ensures StreamsAgree(streams, routes + more, Put(l, id, stage))
  {
    assert OpenIds(Put(l, id, stage)) == OpenIds(l);
    forall j | 0 <= j < |streams| ensures StreamFits(routes + more, At(Put(l, id, stage), streams[j].id), streams[j]) {
      assert StreamFits(routes, At(l, streams[j].id), streams[j]);
      assert streams[j].id in Ids(streams);
    }
  }

  // ---------------------------------------------------------------- calls

  lemma CallsStay(cfg: Config, calls: seq<Call>, routes: Routed, more: Routed, l: Ledger, id: nat, stage: Stage)
    requires CallsAgree(cfg, calls, routes, l)
    requires At(l, id).None? || !l.stages[id].Dispatched?
    requires !stage.Dispatched?
    ensures CallsAgree(cfg, calls, routes + more, Put(l, id, stage))
  {
    var l' := Put(l, id, stage);
    forall i | 0 <= i < |calls| ensures CallFits(cfg, routes + more, At(l', l'.done[i]), calls[i]) {
      assert CallFits(cfg, routes, At(l, l.done[i]), calls[i]);
    }
  }

  lemma CallEnters(cfg: Config, calls: seq<Call>, routes: Routed, more: Routed, l: Ledger, c: Call, stage: Stage)
    requires CallsAgree(cfg, calls, routes, l)
    requires At(l, c.id).None? || !l.stages[c.id].Dispatched?
    requires CallFits(cfg, routes + more, Some(stage), c)
    ensures CallsAgree(cfg, calls + [c], routes + more, Put(l, c.id, stage))
  {
    var l' := Put(l, c.id, stage);
    forall i | 0 <= i < |calls|
      ensures calls[i].id != c.id && CallFits(cfg, routes + more, At(l', l'.done[i]), calls[i])
    {
      assert CallFits(cfg, routes, At(l, l.done[i]), calls[i]);
    }
    assert l'.done[|calls|] == c.id;
  }

  // ---------------------------------------------------------------- one frame at a time

  /** DATA, direct or collected: its content is on the stream and it may end the request. */
  lemma DataAgrees(cfg: Config, core: Core, l: Ledger, id: nat, content: seq<byte>, end: bool, credit: seq<(nat, nat)>)
    requires |cfg.code| == 257 && Agrees(cfg, core, l)
    ensures var step := DataArrived(cfg, core.(credit := credit, streams := AppendData(core.streams, id, content)),
            id, end);
            step.Next? ==> Agrees(cfg, step.core, Receive(l, id, content, end))
  {
    FindIsMember(core.streams, id);
    match Find(core.streams, id)
    case None =>
    case Some(i) =>
      var s := core.streams[i];
      assert StreamFits(Routes(cfg, l), At(l, id), s);
      var data := s.data + content;
      var grown := AppendData(core.streams, id, content);
      var k := l.stages[id].k;
      FindStays(core.streams, grown, id, 0);
      if !end {
        StreamGrows(core.streams, Routes(cfg, l), l, i, data);
        CallsStay(cfg, core.calls, Routes(cfg, l), [], l, id, Open(k, data));
      } else if DecodeMessage(cfg, data, s.encoding).Ok? {
        var stage := Dispatched(k, Some(data));
        assert Remove(grown, i) == Remove(core.streams, i);
        StreamLeaves(core.streams, Routes(cfg, l), l, i, stage);
        var c := Call(s.isvc, s.disc, DecodeMessage(cfg, data, s.encoding).value, id);
        CallEnters(cfg, core.calls, Routes(cfg, l), [], l, c, stage);
      }
      assert Routes(cfg, l) + [] == Routes(cfg, l);
  }

  /** A new block is served from where the blocks before it left decoder and cache. */
  lemma ServeOn(cfg: Config, dec: HpackDecoder.State, cache: seq<Route>, l: Ledger, block: seq<byte>)
    requires |cfg.code| == 257 && RouterAgrees(cfg, dec, cache, l)
    requires ResolveResult(cfg.code, cfg.services, dec, cache, block).Ok?
    ensures var r := ResolveResult(cfg.code, cfg.services, dec, cache, block).value;
            var l' := l.(blocks := l.blocks + [block]);
            && RouterAgrees(cfg, r.st, r.cache, l')
            && Routes(cfg, l') == Routes(cfg, l) + [(r.route, r.encoding)]
            && |Routes(cfg, l)| == |l.blocks|
  {
    assert (l.blocks + [block])[..|l.blocks|] == l.blocks;
  }

  /** The request ends with its header block. */
  lemma BlockEnds(cfg: Config, core: Core, routes: Routed, route: (Route, HpackDecoder.GrpcEncoding), l: Ledger,
          id: nat)
    requires StreamsAgree(core.streams, routes, l) && CallsAgree(cfg, core.calls, routes, l)
    requires At(l, id).None? || l.stages[id].Awaiting?
    ensures var l' := Put(l, id, Dispatched(|routes|, None));
            && StreamsAgree(core.streams, routes + [route], l')
            && CallsAgree(cfg, core.calls + [Call(route.0.0, route.0.1, [], id)], routes + [route], l')
  {
    var stage := Dispatched(|routes|, None);
    StreamsStay(core.streams, routes, [route], l, id, stage);
    CallEnters(cfg, core.calls, routes, [route], l, Call(route.0.0, route.0.1, [], id), stage);
  }

  /** The request goes on with DATA. */
  lemma BlockOpens(cfg: Config, core: Core, routes: Routed, route: (Route, HpackDecoder.GrpcEncoding), l: Ledger,
          id: nat)
    requires StreamsAgree(core.streams, routes, l) && CallsAgree(cfg, core.calls, routes, l)
    requires At(l, id).None? || l.stages[id].Awaiting?
    requires forall k :: k in OpenIds(l) ==> k < id
    ensures var l' := Put(l, id, Open(|routes|, []));
            && StreamsAgree(core.streams + [Stream(id, route.0.0, route.0.1, route.1, [])], routes + [route], l')
            && CallsAgree(cfg, core.calls, routes + [route], l')
  {
    StreamEnters(core.streams, routes, l, Stream(id, route.0.0, route.0.1, route.1, []), route);
    CallsStay(cfg, core.calls, routes, [route], l, id, Open(|routes|, []));
  }

  /** A header block is complete: of a new stream, or of the one that waited. */
  lemma BlockAgrees(cfg: Config, core: Core, l: Ledger, end: bool, block: seq<byte>)
    requires |cfg.code| == 257 && core.cont.None?
    requires RouterAgrees(cfg, core.dec, core.cache, l)
    requires StreamsAgree(core.streams, Routes(cfg, l), l) && CallsAgree(cfg, core.calls, Routes(cfg, l), l)
    requires core.last % 2 == 1 && Known(l, core.last) && core.writes == l.replies && |core.streams| < cfg.maxStreams
    requires At(l, core.last).None? || l.stages[core.last].Awaiting?
    requires forall id :: id in l.stages && l.stages[id].Awaiting? ==> id == core.last
    ensures var step := OnBlock(cfg, core, core.last, end, block);
            step.Next? ==> Agrees(cfg, step.core, Begin(l, core.last, end, block))
  {
    if OnBlock(cfg, core, core.last, end, block).Next? {
      var r := BlockResolves(cfg, core, core.last, end, block);
      ServeOn(cfg, core.dec, core.cache, l, block);
      var l1 := l.(blocks := l.blocks + [block]);
      BlockRecorded(cfg, core, core.(dec := r.st, cache := r.cache), l, l1, (r.route, r.encoding), end);
    }
  }

  /** What a block that resolves does. */
  lemma BlockResolves(cfg: Config, core: Core, id: nat, end: bool, block: seq<byte>) returns (r: Resolved)
    requires |cfg.code| == 257 && OnBlock(cfg, core, id, end, block).Next?
    ensures ResolveResult(cfg.code, cfg.services, core.dec, core.cache, block) == Ok(r)
    ensures OnBlock(cfg, core, id, end, block).core ==
            Entered(core.(dec := r.st, cache := r.cache), id, (r.route, r.encoding), end)
  {
    r := ResolveResult(cfg.code, cfg.services, core.dec, core.cache, block).value;
  }

  /** A request with a route: a call, or a stream that waits for DATA. */
  function Entered(core: Core, id: nat, route: (Route, HpackDecoder.GrpcEncoding), end: bool): Core {
    var ((isvc, disc), encoding) := route;
    if end then core.(calls := core.calls + [Call(isvc, disc, [], id)])
    else core.(streams := core.streams + [Stream(id, isvc, disc, encoding, [])])
  }

  lemma BlockRecorded(cfg: Config, core0: Core, core: Core, l: Ledger, l1: Ledger,
          route: (Route, HpackDecoder.GrpcEncoding), end: bool)
    requires |cfg.code| == 257 && core.cont.None? && core == core0.(dec := core.dec, cache := core.cache)
    requires l1 == l.(blocks := l1.blocks) && |l1.blocks| == |l.blocks| + 1 && l1.blocks[..|l.blocks|] == l.blocks
    requires RouterAgrees(cfg, core.dec, core.cache, l1)
    requires Routes(cfg, l1) == Routes(cfg, l) + [route] && |Routes(cfg, l)| == |l.blocks|
    requires StreamsAgree(core.streams, Routes(cfg, l), l) && CallsAgree(cfg, core.calls, Routes(cfg, l), l)
    requires core.last % 2 == 1 && Known(l, core.last) && core.writes == l.replies && |core.streams| < cfg.maxStreams
    requires At(l, core.last).None? || l.stages[core.last].Awaiting?
    requires forall id :: id in l.stages && l.stages[id].Awaiting? ==> id == core.last
    ensures Agrees(cfg, Entered(core, core.last, route, end), Begin(l, core.last, end, l1.blocks[|l.blocks|]))
  {
    var id, routes := core.last, Routes(cfg, l);
    var stage := if end then Dispatched(|routes|, None) else Open(|routes|, []);
    assert l.blocks + [l1.blocks[|l.blocks|]] == l1.blocks;
    assert Begin(l, id, end, l1.blocks[|l.blocks|]) == Put(l1, id, stage);
    assert StreamsAgree(core.streams, routes, l1) && CallsAgree(cfg, core.calls, routes, l1);
    if end {
      BlockEnds(cfg, core, routes, route, l1, id);
    } else {
      BlockOpens(cfg, core, routes, route, l1, id);
    }
    PutIsKnown(l1, id, stage, id);
    SameBlocks(cfg, l1, Put(l1, id, stage));
  }

  /** Routes only depend on the blocks. */
  lemma SameBlocks(cfg: Config, l: Ledger, l': Ledger)
    requires |cfg.code| == 257 && l'.blocks == l.blocks
    ensures Routes(cfg, l') == Routes(cfg, l)
    ensures forall dec, cache :: RouterAgrees(cfg, dec, cache, l) ==> RouterAgrees(cfg, dec, cache, l')
  {}

  /** The newest stream leaves the wait for CONTINUATION. */
  lemma PutIsKnown(l: Ledger, id: nat, stage: Stage, last: nat)
    requires Known(l, last) && id % 2 == 1 && id <= last && !stage.Awaiting?
    requires forall k :: k in l.stages && l.stages[k].Awaiting? ==> k == id
    ensures Known(Put(l, id, stage), last) && PendingAgrees(None, last, Put(l, id, stage))
  {}

  /** A stage that neither opens nor dispatches, for a stream that is neither. */
  lemma AsideAgrees(cfg: Config, core: Core, l: Ledger, id: nat, stage: Stage)
    requires |cfg.code| == 257 && RouterAgrees(cfg, core.dec, core.cache, l)
    requires StreamsAgree(core.streams, Routes(cfg, l), l) && CallsAgree(cfg, core.calls, Routes(cfg, l), l)
    requires At(l, id).None? || l.stages[id].Awaiting?
    requires !stage.Open? && !stage.Dispatched?
    ensures var l' := Put(l, id, stage);
            && RouterAgrees(cfg, core.dec, core.cache, l')
            && StreamsAgree(core.streams, Routes(cfg, l'), l') && CallsAgree(cfg, core.calls, Routes(cfg, l'), l')
  {
    StreamsStay(core.streams, Routes(cfg, l), [], l, id, stage);
    CallsStay(cfg, core.calls, Routes(cfg, l), [], l, id, stage);
    assert Routes(cfg, l) + [] == Routes(cfg, l);
  }

  lemma HeadersAgree(cfg: Config, core: Core, l: Ledger, f: Frame)
    requires |cfg.code| == 257 && Agrees(cfg, core, l) && core.cont.None?
    ensures var step := OnHeaders(cfg, core, f);
            step.Next? ==> Agrees(cfg, step.core, Ask(cfg.maxStreams, l, f))
  {
    if OnHeaders(cfg, core, f).Next? {
      BlockIsStripped(f);
      IdsCount(core.streams);
      var core' := core.(last := f.id);
      assert f.id !in l.stages;
      if |core.streams| >= cfg.maxStreams {
        AsideAgrees(cfg, core', Answer(l, RstBytes(f.id)), f.id, Refused);
      } else {
        var block := StripHeaders(f.flags, f.payload).value;
        if IsEndHeaders(f.flags) {
          BlockAgrees(cfg, core', l, IsEndStream(f.flags), block);
        } else {
          AsideAgrees(cfg, core', l, f.id, Awaiting(IsEndStream(f.flags), block));
        }
      }
    }
  }

  lemma ContinuationAgrees(cfg: Config, core: Core, l: Ledger, f: Frame)
    requires |cfg.code| == 257 && Agrees(cfg, core, l)
    requires core.cont.Some? && core.cont.value.id == f.id && f.kind == Continuation
    ensures var step := OnContinuation(cfg, core, f);
            step.Next? ==> Agrees(cfg, step.core, Record(cfg.maxStreams, l, f))
  {
    var Pending(id, end, block) := core.cont.value;
    var whole := block + f.payload;
    assert id == core.last && At(l, id) == Some(Awaiting(end, block));
    if IsEndHeaders(f.flags) {
      assert Record(cfg.maxStreams, l, f) == Begin(l, id, end, whole);
      BlockAgrees(cfg, core.(cont := None), l, end, whole);
    } else {
      assert Record(cfg.maxStreams, l, f) == Put(l, id, Awaiting(end, whole));
      AsideAgrees(cfg, core, l, id, Awaiting(end, whole));
    }
  }

  lemma ResetAgrees(cfg: Config, core: Core, l: Ledger, f: Frame)
    requires |cfg.code| == 257 && Agrees(cfg, core, l) && core.cont.None? && f.kind == Reset
    ensures var step := OnControl(core, f);
            step.Next? ==> Agrees(cfg, step.core, Record(cfg.maxStreams, l, f))
  {
    FindIsMember(core.streams, f.id);
    match Find(core.streams, f.id)
    case None =>
    case Some(i) =>
      StreamLeaves(core.streams, Routes(cfg, l), l, i, Cancelled);
      CallsStay(cfg, core.calls, Routes(cfg, l), [], l, f.id, Cancelled);
      assert Routes(cfg, l) + [] == Routes(cfg, l);
  }

  lemma DataFrameAgrees(cfg: Config, core: Core, l: Ledger, f: Frame)
    requires |cfg.code| == 257 && Agrees(cfg, core, l) && f.kind == FrameKind.Data
    ensures var step := FrameStep(cfg, core, f);
            step.Next? ==> Agrees(cfg, step.core, Record(cfg.maxStreams, l, f))
  {
    ContentIsStripped(f);
    match StripPadding(f.flags, f.payload)
    case Ok(content) =>
      DataAgrees(cfg, core, l, f.id, content, IsEndStream(f.flags), core.credit + [(f.id, |f.payload|)]);
    case _ =>
  }

  lemma AnswerAgrees(cfg: Config, core: Core, l: Ledger, reply: seq<byte>)
    requires |cfg.code| == 257 && Agrees(cfg, core, l)
    ensures Agrees(cfg, core.(writes := core.writes + [reply]), Answer(l, reply))
  {}

  /** Frames that touch no stream may be answered. */
  lemma ControlAgrees(cfg: Config, core: Core, l: Ledger, f: Frame)
    requires |cfg.code| == 257 && Agrees(cfg, core, l)
    requires !f.kind.Data? && !f.kind.Headers? && !f.kind.Continuation? && !f.kind.Reset?
    ensures var step := FrameStep(cfg, core, f);
            step.Next? ==> Agrees(cfg, step.core, Record(cfg.maxStreams, l, f))
  {
    match f.kind
    case Settings => AnswerAgrees(cfg, core, l, SettingsAckBytes());
    case Ping => AnswerAgrees(cfg, core, l, PingAckBytes(f.payload));
    case _ =>
  }

  /** What the server does with a frame agrees with what the ledger records of it. */
  lemma StepAgrees(cfg: Config, core: Core, l: Ledger, f: Frame)
    requires |cfg.code| == 257 && Agrees(cfg, core, l)
    ensures var step := FrameStep(cfg, core, f);
            step.Next? ==> Agrees(cfg, step.core, Record(cfg.maxStreams, l, f))
  {
    match f.kind
    case Data => DataFrameAgrees(cfg, core, l, f);
    case Headers =>
      if core.cont.None? {
        HeadersAgree(cfg, core, l, f);
      }
    case Continuation =>
      if core.cont.Some? && core.cont.value.id == f.id {
        ContinuationAgrees(cfg, core, l, f);
      }
    case Reset =>
      if core.cont.None? {
        ResetAgrees(cfg, core, l, f);
      }
    case _ => ControlAgrees(cfg, core, l, f);
  }
}
