/**
 The read loop of a connection (handle_connection, pajamax/src/connection.rs): octets come in chunks
 of any size, a frame header is collected in nine octets, DATA without padding goes to its stream
 as it arrives, and every other payload is collected before it is processed.
*/
module Connection {
  import opened Wrappers
  import opened Bits
  import opened Http2
  import opened RouteCache
  import opened Frames
  import HpackDecoder
  import opened Accounts
  import Runs
  import Writer

  /** A call that did to a connection what `spec` says, or stopped it before anything left it. */
  ghost predicate Did(spec: Outcome, r: Option<Why>, after: Core, sameOutput: bool) {
    match spec
    case Next(core) => r == None && after == core
    case Stop(why) => r == Some(why) && sameOutput
  }

  /** A run goes on from a later state and the octets not yet taken, or has stopped there. */
  ghost predicate Leads(cfg: Config, core: Core, buf: seq<byte>, r: Option<Why>, core': Core, buf': seq<byte>)
    requires |cfg.code| == 257
  {
    match r
    case None => RunBytes(cfg, core, buf) == RunBytes(cfg, core', buf')
    case Some(why) =>
      var ran := RunBytes(cfg, core, buf);
      ran.Stopped? && ran.why == why && ran.core.calls == core'.calls && ran.core.writes == core'.writes
  }

  /** So it is whatever octets come next. */
  ghost predicate Continues(cfg: Config, core: Core, buf: seq<byte>, r: Option<Why>, core': Core, buf': seq<byte>)
    requires |cfg.code| == 257
  {
    forall more {:trigger Leads(cfg, core, buf + more, r, core', buf' + more)} ::
      Leads(cfg, core, buf + more, r, core', buf' + more)
  }

  lemma ContinuesSelf(cfg: Config, core: Core, buf: seq<byte>)
    requires |cfg.code| == 257
    ensures Continues(cfg, core, buf, None, core, buf)
  {}

  /** A frame that is complete takes its step. */
  lemma FrameContinues(cfg: Config, core: Core, frame: seq<byte>, f: Frame, r: Option<Why>, core': Core,
          sameOutput: bool)
    requires |cfg.code| == 257
    requires HEAD_SIZE <= |frame| && ParseHead(frame[..HEAD_SIZE]) == HeadOf(f) && frame[HEAD_SIZE..] == f.payload
    requires Did(FrameStep(cfg, core, f), r, core', sameOutput)
    requires sameOutput ==> core.calls == core'.calls && core.writes == core'.writes
    ensures Continues(cfg, core, frame, r, core', [])
  {
    forall more ensures Leads(cfg, core, frame + more, r, core', [] + more) {
      RunStep(cfg, core, frame, more);
      assert [] + more == more;
    }
  }

  /** A run that has come to an incomplete frame, or stopped, is over. */
  lemma RunEnds(cfg: Config, core: Core, buf: seq<byte>, r: Option<Why>, core': Core, part: seq<byte>)
    requires |cfg.code| == 257
    requires Continues(cfg, core, buf, r, core', part) && (r == None ==> ParseFrame(part) == None)
    ensures match RunBytes(cfg, core, buf)
            case Running(last, rest) => r == None && core' == last && part == rest
            case Stopped(last, why) => r == Some(why) && core'.calls == last.calls && core'.writes == last.writes
  {
    assert buf + [] == buf && part + [] == part;
    assert Leads(cfg, core, buf + [], r, core', part + []);
  }

  /** More octets lead where the run that goes on from the state before them leads. */
  lemma TurnLeads(cfg: Config, octets: seq<byte>, core: Core, part: seq<byte>, piece: seq<byte>, r: Option<Why>,
          core': Core, part': seq<byte>)
    requires |cfg.code| == 257
    requires RunBytes(cfg, FRESH, octets) == Running(core, part)
    requires Continues(cfg, core, part + piece, r, core', part') && (r == None ==> ParseFrame(part') == None)
    ensures match RunBytes(cfg, FRESH, octets + piece)
            case Running(last, rest) => r == None && core' == last && part' == rest
            case Stopped(last, why) => r == Some(why) && core'.calls == last.calls && core'.writes == last.writes
  {
    SplitRun(cfg, FRESH, octets, piece);
    RunEnds(cfg, core, part + piece, r, core', part');
  }

  /** A run that was stopped is stopped, whatever else was to be read. */
  lemma StaysStopped(cfg: Config, octets: seq<byte>, more: seq<byte>)
    requires |cfg.code| == 257
    requires RunBytes(cfg, FRESH, octets).Stopped?
    ensures RunBytes(cfg, FRESH, octets + more) == RunBytes(cfg, FRESH, octets)
  {
    SplitRun(cfg, FRESH, octets, more);
  }

  /** A piece copied behind the first octets of a buffer. */
  lemma Spliced(a: seq<byte>, b: seq<byte>, len: nat, piece: seq<byte>)
    requires |a| == |b| && len + |piece| <= |a|
    requires forall i :: 0 <= i < len ==> b[i] == a[i]
    requires forall i :: 0 <= i < |piece| ==> b[len + i] == piece[i]
    ensures b[..len + |piece|] == a[..len] + piece
  {}

  /** Octets move from the chunk to those taken. */
  lemma Advance(octets: seq<byte>, chunk: seq<byte>, pos: nat, pos': nat)
    requires pos <= pos' <= |chunk|
    ensures (octets + chunk[..pos]) + chunk[pos..pos'] == octets + chunk[..pos']
  {
    assert chunk[..pos'] == chunk[..pos] + chunk[pos..pos'];
  }

  lemma StopsInside(cfg: Config, octets: seq<byte>, chunk: seq<byte>, pos: nat)
    requires |cfg.code| == 257 && pos <= |chunk|
    requires RunBytes(cfg, FRESH, octets + chunk[..pos]).Stopped?
    ensures RunBytes(cfg, FRESH, octets + chunk) == RunBytes(cfg, FRESH, octets + chunk[..pos])
  {
    StaysStopped(cfg, octets + chunk[..pos], chunk[pos..]);
    assert octets + chunk[..pos] + chunk[pos..] == octets + chunk;
  }

  /** The octets of a DATA frame that is not complete, on its stream. */
  function PartCount(part: seq<byte>): seq<(nat, nat)> {
    if |part| < HEAD_SIZE then []
    else
      var h := ParseHead(part[..HEAD_SIZE]);
      if h.kind == FrameKind.Data then [(h.id, |part| - HEAD_SIZE)] else []
  }

  /** The octets of DATA among those a peer has sent, those of an incomplete frame included. */
  function DataCounts(octets: seq<byte>): seq<(nat, nat)> {
    Runs.DataLens(ParseFrames(octets).0) + PartCount(ParseFrames(octets).1)
  }

  /** Wherever a run has come, its DATA octets are sent as credit, in the batch, or of the frame being read. */
  lemma CountsBalance(cfg: Config, octets: seq<byte>, core: Core, part: seq<byte>, jobs: seq<Writer.Job>, limit: nat,
          len: nat, lens: seq<(nat, nat)>)
    requires |cfg.code| == 257 && RunBytes(cfg, FRESH, octets) == Running(core, part)
    requires Balances(core.credit, jobs, limit, len, lens)
    ensures Sum(DataCounts(octets)) == SentCredit(jobs) + len + Sum(PartCount(part))
    ensures forall id :: SumFor(DataCounts(octets), id) ==
              SentFor(jobs, id) + SumFor(lens, id) + SumFor(PartCount(part), id)
  {
    Runs.OctetsAreFrames(cfg, FRESH, octets);
    Runs.DataIsCharged(cfg, ParseFrames(octets).0);
    forall id
      ensures SumFor(DataCounts(octets), id) == SentFor(jobs, id) + SumFor(lens, id) + SumFor(PartCount(part), id)
    {
      SumsAppend(core.credit, PartCount(part), id);
    }
    SumsAppend(core.credit, PartCount(part), 0);
  }

  /** At most one count is appended. */
  lemma SumsAppend(credit: seq<(nat, nat)>, more: seq<(nat, nat)>, id: nat)
    requires |more| <= 1
    ensures Sum(credit + more) == Sum(credit) + Sum(more)
    ensures SumFor(credit + more, id) == SumFor(credit, id) + SumFor(more, id)
  {
    if more == [] {
      assert credit + more == credit;
    } else {
      assert more == [more[0]];
      OneCount(credit, more[0], id);
      OneCount([], more[0], id);
      assert [] + more == more;
    }
  }

  lemma OneCount(credit: seq<(nat, nat)>, x: (nat, nat), id: nat)
    ensures Sum(credit + [x]) == Sum(credit) + x.1
    ensures SumFor(credit + [x], id) == SumFor(credit, id) + (if x.0 == id then x.1 else 0)
  {
    SumStep(credit, x);
  }

  class Connection {
    const cfg: Config
    const decoder: HpackDecoder.Decoder
    const headerBuf: array<byte>

    // Streams, headers and what the peer waits for.
    var streams: seq<Stream>
    var routeCache: seq<Route>
    var continuationBuf: Option<Pending>
    var lastClientStreamId: nat

    // Streaming frame parser state.
    var headerLen: nat
    var controlBuf: seq<byte>
    var cur: FrameHeader
    var curPayloadRead: nat
    var inPayload: bool

    // Window updates of the current read.
    var dataLen: nat
    var streamDataLens: seq<(nat, nat)>

    // What leaves the loop: response jobs, and handlers started.
    var jobs: seq<Writer.Job>
    var calls: seq<Call>

    /** Above every batch: a frame carried over, and the longest read so far. */
    ghost var limit: nat

    /** Every DATA frame charged, the streams before the current frame, and its octets so far. */
    ghost var credit: seq<(nat, nat)>
    ghost var before: seq<Stream>
    ghost var part: seq<byte>

    /** All octets taken from the peer. */
    ghost var octets: seq<byte>

    constructor (cfg: Config)
      requires ValidConfig(cfg)
      ensures Tied() && Accounted() && dataLen == 0
      ensures Boundary() == FRESH && part == [] && octets == [] && limit == U24
      ensures fresh(decoder) && fresh(headerBuf)
      ensures this.cfg == cfg
    {
      this.cfg := cfg;
      decoder := new HpackDecoder.Decoder();
      headerBuf := new byte[HEAD_SIZE](_ => 0);
      streams, routeCache, continuationBuf, lastClientStreamId := [], [], None, 0;
      headerLen, controlBuf, curPayloadRead, inPayload := 0, [], 0, false;
      cur := FrameHeader(0, Unknown, 0, 0);
      dataLen, streamDataLens := 0, [];
      jobs, calls := [], [];
      limit := U24;
      credit, before, part, octets := [], [], [], [];
    }

    ghost function View(): Core
      reads this, decoder
    {
      Core(streams, decoder.Abs(), routeCache, continuationBuf, lastClientStreamId, credit, calls, Writes(jobs))
    }

    /** The state after the last whole frame. */
    ghost function Boundary(): Core
      reads this, decoder
    {
      View().(streams := before)
    }

    /** The parser's fields say which octets of the current frame are in. */
    ghost predicate Tied()
      reads this`inPayload, this`headerLen, this`cur, this`curPayloadRead, this`controlBuf, this`streams, this`before,
        this`part, headerBuf
    {
      && ValidConfig(cfg)
      && headerBuf.Length == HEAD_SIZE
      && if inPayload then InPayload() else InHeader()
    }

    ghost predicate InHeader()
      reads this`headerLen, this`streams, this`before, this`part, headerBuf
    {
      && headerLen < HEAD_SIZE && headerBuf.Length == HEAD_SIZE
      && part == headerBuf[..headerLen]
      && streams == before
    }

    ghost predicate InPayload()
      reads this`headerLen, this`cur, this`curPayloadRead, this`controlBuf, this`streams, this`before, this`part
    {
      && headerLen == 0
      && HEAD_SIZE <= |part|
      && cur == ParseHead(part[..HEAD_SIZE])
      && curPayloadRead == |part| - HEAD_SIZE < cur.len
      && (if IsDirect(cur) then streams == AppendData(before, cur.id, part[HEAD_SIZE..])
          else streams == before && controlBuf == part[HEAD_SIZE..])
    }

    /** The payload octets of a frame carried over from earlier octets. */
    ghost function Carried(): nat
      reads this`inPayload, this`curPayloadRead
    {
      if inPayload then curPayloadRead else 0
    }

    ghost predicate Accounted()
      reads this`dataLen, this`streamDataLens, this`credit, this`jobs, this`limit
    {
      Balances(credit, jobs, limit, dataLen, streamDataLens)
    }

    // -------------------------------------------------------------- frames

    method Send(job: Writer.Job)
      requires Accounted() && job.Write?
      modifies this`jobs
      ensures Accounted() && jobs == old(jobs) + [job]
      ensures Writes(jobs) == Writes(old(jobs)) + [job.buf]
    {
      SendJob(jobs, job);
      jobs := jobs + [job];
    }

    method ChargeData(id: nat, len: nat)
      requires Accounted()
      modifies this`dataLen, this`streamDataLens, this`credit
      ensures Accounted() && credit == old(credit) + [(id, len)] && dataLen == old(dataLen) + len
    {
      ChargeAccounts(credit, jobs, limit, dataLen, streamDataLens, (id, len));
      dataLen := dataLen + len;
      streamDataLens := streamDataLens + [(id, len)];
      credit := credit + [(id, len)];
    }

    /** The end of a DATA frame whose content is on its stream. */
    method FinishData(id: nat, flags: byte) returns (r: Option<Why>)
      requires Accounted()
      modifies this`streams, this`calls
      ensures Accounted()
      ensures Did(DataArrived(cfg, old(View()), id, IsEndStream(flags)), r, View(), calls == old(calls))
    {
      var i := Find(streams, id);
      if i.None? {
        return None;
      }
      if !IsEndStream(flags) {
        return None;
      }
      var s := streams[i.value];
      streams := Remove(streams, i.value);
      var data := DecodeMessage(cfg, s.data, s.encoding);
      match data
      case Err(e) =>
        return Some(Failed(e));
      case Panic =>
        return Some(Panicked);
      case Ok(msg) =>
        calls := calls + [Call(s.isvc, s.disc, msg, s.id)];
        return None;
    }

    method HandleData(flags: byte, id: nat, payload: seq<byte>) returns (r: Option<Why>)
      requires Accounted()
      modifies this`streams, this`calls, this`dataLen, this`streamDataLens, this`credit
      ensures Accounted() && dataLen <= old(dataLen) + |payload|
      ensures Did(OnData(cfg, old(View()), Frame(FrameKind.Data, flags, id, payload)), r, View(), calls == old(calls))
    {
      var content := StripPadding(flags, payload);
      match content
      case Err(e) =>
        return Some(Failed(e));
      case Panic =>
        return Some(Panicked);
      case Ok(reqBuf) =>
        ChargeData(id, |payload|);
        streams := AppendData(streams, id, reqBuf);
        r := FinishData(id, flags);
    }

    /** A whole header block: its route is resolved, and it starts a handler or opens a stream. */
    method HandleBlock(id: nat, end: bool, block: seq<byte>) returns (r: Option<Why>)
      requires ValidConfig(cfg)
      modifies this`streams, this`calls, this`routeCache, decoder
      ensures Did(OnBlock(cfg, old(View()), id, end, block), r, View(), calls == old(calls))
    {
      var route;
      route, routeCache := ResolveRoute(cfg.code, decoder, routeCache, cfg.services, block);
      match route
      case Err(e) =>
        return Some(Failed(e));
      case Panic =>
        return Some(Panicked);
      case Ok((isvc, disc, encoding)) =>
        if end {
          calls := calls + [Call(isvc, disc, [], id)];
        } else {
          streams := streams + [Stream(id, isvc, disc, encoding, [])];
        }
        return None;
    }

    /** No room for a new stream: RST_STREAM with REFUSED_STREAM. */
    method Refuse(id: nat)
      requires Accounted()
      modifies this`jobs
      ensures Accounted() && Writes(jobs) == Writes(old(jobs)) + [RstBytes(id)]
    {
      var output := Writer.BuildRstStream(id, 7, []);
      assert output == RstBytes(id);
      Send(Writer.Write(output));
    }

    method HandleHeaders(flags: byte, id: nat, payload: seq<byte>) returns (r: Option<Why>)
      requires ValidConfig(cfg) && Accounted()
      modifies this`streams, this`calls, this`routeCache, this`continuationBuf, this`lastClientStreamId, this`jobs,
        decoder
      ensures Accounted()
      ensures Did(OnHeaders(cfg, old(View()), Frame(Headers, flags, id, payload)), r, View(),
                  calls == old(calls) && jobs == old(jobs))
    {
      if id % 2 == 0 {
        return Some(Failed(InvalidHttp2));
      }
      if id <= lastClientStreamId {
        return Some(Failed(InvalidHttp2));
      }
      lastClientStreamId := id;
      if |streams| >= cfg.maxStreams {
        Refuse(id);
        return None;
      }
      var headersBuf := StripHeaders(flags, payload);
      match headersBuf
      case Err(e) =>
        return Some(Failed(e));
      case Panic =>
        return Some(Panicked);
      case Ok(block) =>
        if !IsEndHeaders(flags) {
          continuationBuf := Some(Pending(id, IsEndStream(flags), block));
          return None;
        }
        r := HandleBlock(id, IsEndStream(flags), block);
    }

    method HandleContinuation(flags: byte, id: nat, payload: seq<byte>) returns (r: Option<Why>)
      requires ValidConfig(cfg)
      modifies this`streams, this`calls, this`routeCache, this`continuationBuf, decoder
      ensures Did(OnContinuation(cfg, old(View()), Frame(Continuation, flags, id, payload)), r, View(),
                  calls == old(calls))
    {
      match continuationBuf
      case None =>
        return Some(Failed(InvalidHttp2));
      case Some(Pending(contId, end, buf)) =>
        continuationBuf := Some(Pending(contId, end, buf + payload));
        if !IsEndHeaders(flags) {
          return None;
        }
        continuationBuf := None;
        r := HandleBlock(contId, end, buf + payload);
    }

    method HandleControl(kind: FrameKind, flags: byte, id: nat, payload: seq<byte>) returns (r: Option<Why>)
      requires Accounted()
      modifies this`streams, this`jobs
      ensures Accounted()
      ensures Did(OnControl(old(View()), Frame(kind, flags, id, payload)), r, View(), jobs == old(jobs))
    {
      r := None;
      match kind
      case Settings =>
        if id != 0 {
          return Some(Failed(InvalidHttp2));
        }
        if !IsAck(flags) {
          var output := Writer.BuildSettingsAck([]);
          assert output == SettingsAckBytes();
          Send(Writer.Write(output));
        }
      case Ping =>
        if id != 0 {
          return Some(Failed(InvalidHttp2));
        }
        if !IsAck(flags) {
          if |payload| != 8 {
            return Some(Panicked);
          }
          var output := Writer.BuildPingAck(payload, []);
          assert output == PingAckBytes(payload);
          Send(Writer.Write(output));
        }
      case GoAway =>
        if id != 0 || |payload| < 8 {
          return Some(Failed(InvalidHttp2));
        }
        return Some(PeerLeft);
      case Reset =>
        if |payload| != 4 {
          return Some(Failed(InvalidHttp2));
        }
        var i := Find(streams, id);
        if i.Some? {
          streams := Remove(streams, i.value);
        }
      case WindowUpdate =>
        if |payload| != 4 || FromBe(payload) % U31 == 0 {
          return Some(Failed(InvalidHttp2));
        }
      case _ =>
    }

    /** process_frame */
    method HandleFrame(kind: FrameKind, flags: byte, id: nat, payload: seq<byte>) returns (r: Option<Why>)
      requires ValidConfig(cfg) && Accounted()
      modifies this`streams, this`calls, this`routeCache, this`continuationBuf, this`lastClientStreamId, this`jobs,
               this`dataLen, this`streamDataLens, this`credit, decoder
      ensures Accounted() && dataLen <= old(dataLen) + |payload|
      ensures Did(ProcessFrame(cfg, old(View()), Frame(kind, flags, id, payload)), r, View(),
                  calls == old(calls) && jobs == old(jobs))
    {
      if continuationBuf.Some? {
        if kind != Continuation {
          return Some(Failed(InvalidHttp2));
        }
        if id != continuationBuf.value.id {
          return Some(Failed(InvalidHttp2));
        }
      }
      if kind == FrameKind.Data || kind == Headers {
        if id == 0 {
          return Some(Failed(InvalidHttp2));
        }
      }
      r := HandleKind(kind, flags, id, payload);
    }

    /** A frame that may come now, by its kind. */
    method HandleKind(kind: FrameKind, flags: byte, id: nat, payload: seq<byte>) returns (r: Option<Why>)
      requires ValidConfig(cfg) && Accounted()
      requires continuationBuf.Some? ==> kind == Continuation && id == continuationBuf.value.id
      requires kind == FrameKind.Data || kind == Headers ==> id != 0
      modifies this`streams, this`calls, this`routeCache, this`continuationBuf, this`lastClientStreamId, this`jobs,
               this`dataLen, this`streamDataLens, this`credit, decoder
      ensures Accounted() && dataLen <= old(dataLen) + |payload|
      ensures Did(ProcessFrame(cfg, old(View()), Frame(kind, flags, id, payload)), r, View(),
                  calls == old(calls) && jobs == old(jobs))
    {
      match kind
      case Data =>
        r := HandleData(flags, id, payload);
      case Headers =>
        r := HandleHeaders(flags, id, payload);
      case Continuation =>
        r := HandleContinuation(flags, id, payload);
      case _ =>
        r := HandleControl(kind, flags, id, payload);
    }

    // -------------------------------------------------------------- octets

    /** Nothing of the current read is owed: all the credit charged has been sent. */
    ghost predicate Settled()
      reads this`credit, this`jobs, this`limit
    {
      Settles(credit, jobs, limit)
    }

    /** A direct payload is complete. */
    method EndDirect(ghost now: Core, ghost f: Frame) returns (r: Option<Why>)
      requires Accounted()
      requires f == Frame(cur.kind, cur.flags, cur.id, f.payload) && cur.len == |f.payload|
      requires View() == now.(streams := AppendData(now.streams, f.id, f.payload))
      modifies this`streams, this`calls, this`dataLen, this`streamDataLens, this`credit
      ensures Accounted() && dataLen == old(dataLen) + cur.len
      ensures Did(DirectData(cfg, now, f), r, View(), calls == old(calls))
    {
      ghost var charged := Charge(now, f.id, |f.payload|).(streams := AppendData(now.streams, f.id, f.payload));
      assert DirectData(cfg, now, f) == DataArrived(cfg, charged, f.id, IsEndStream(f.flags));
      ChargeData(cur.id, cur.len);
      assert View() == charged;
      r := FinishData(cur.id, cur.flags);
      assert Did(DataArrived(cfg, charged, f.id, IsEndStream(f.flags)), r, View(), calls == old(calls));
    }

    /** The payload of the current frame is complete, on its stream or in `payload`. */
    method EndPayload(payload: seq<byte>, ghost now: Core, ghost f: Frame) returns (r: Option<Why>)
      requires ValidConfig(cfg) && Accounted()
      requires f == Frame(cur.kind, cur.flags, cur.id, f.payload) && cur.len == |f.payload|
      requires if IsDirect(cur) then View() == now.(streams := AppendData(now.streams, f.id, f.payload))
               else View() == now && payload == f.payload
      modifies this`streams, this`calls, this`routeCache, this`continuationBuf, this`lastClientStreamId, this`jobs,
               this`dataLen, this`streamDataLens, this`credit, decoder
      ensures Accounted() && dataLen <= old(dataLen) + cur.len
      ensures Did(FrameStep(cfg, now, f), r, View(), calls == old(calls) && jobs == old(jobs))
    {
      if IsDirect(cur) {
        r := EndDirect(now, f);
      } else {
        r := HandleFrame(cur.kind, cur.flags, cur.id, payload);
      }
    }

    /** The octets of the current frame are complete; what follows is at a frame boundary again. */
    method EndFrame(payload: seq<byte>, ghost frame: seq<byte>) returns (r: Option<Why>)
      requires ValidConfig(cfg) && Accounted()
      requires HEAD_SIZE <= |frame| && cur == ParseHead(frame[..HEAD_SIZE]) && cur.len == |frame| - HEAD_SIZE
      requires if IsDirect(cur) then streams == AppendData(before, cur.id, frame[HEAD_SIZE..])
               else streams == before && payload == frame[HEAD_SIZE..]
      modifies this`streams, this`calls, this`routeCache, this`continuationBuf, this`lastClientStreamId, this`jobs,
               this`dataLen, this`streamDataLens, this`credit, this`before, decoder
      ensures Accounted()
      ensures before == streams && dataLen <= old(dataLen) + cur.len
      ensures Continues(cfg, old(Boundary()), frame, r, Boundary(), [])
    {
      ghost var now := Boundary();
      ghost var f := Frame(cur.kind, cur.flags, cur.id, frame[HEAD_SIZE..]);
      r := EndPayload(payload, now, f);
      before := streams;
      FrameContinues(cfg, now, frame, f, r, Boundary(), calls == old(calls) && jobs == old(jobs));
    }

    /** Copies octets of the chunk into the header buffer, up to its ninth. */
    method CollectHeader(chunk: seq<byte>, pos: nat) returns (pos': nat)
      requires InHeader() && pos < |chunk|
      modifies this`headerLen, this`part, headerBuf
      ensures pos < pos' <= |chunk| && part == old(part) + chunk[pos..pos']
      ensures headerLen <= HEAD_SIZE && part == headerBuf[..headerLen]
    {
      var need := HEAD_SIZE - headerLen;
      var avail := |chunk| - pos;
      var take := if need < avail then need else avail;
      ghost var was := headerBuf[..];
      forall i | 0 <= i < take {
        headerBuf[headerLen + i] := chunk[pos + i];
      }
      Spliced(was, headerBuf[..], headerLen, chunk[pos..pos + take]);
      headerLen := headerLen + take;
      pos' := pos + take;
      part := part + chunk[pos..pos'];
    }

    /** The header is complete: an empty frame is processed, any other waits for its payload. */
    method StartFrame() returns (r: Option<Why>)
      requires ValidConfig(cfg) && Accounted() && !inPayload && streams == before
      requires headerBuf.Length == HEAD_SIZE == headerLen && part == headerBuf[..]
      modifies this`streams, this`calls, this`routeCache, this`continuationBuf, this`lastClientStreamId, this`jobs,
               this`dataLen, this`streamDataLens, this`credit, this`before, this`part, this`inPayload, this`cur,
               this`curPayloadRead, this`headerLen, this`controlBuf, decoder
      ensures Tied() && Accounted() && dataLen + Carried() <= old(dataLen)
      ensures Continues(cfg, old(Boundary()), old(part), r, Boundary(), part)
    {
      assert part[..HEAD_SIZE] == part;
      ghost var core := Boundary();
      ContinuesSelf(cfg, core, part);
      cur := ParseHead(headerBuf[..]);
      curPayloadRead := 0;
      headerLen := 0;
      assert Boundary() == core;
      if cur.len == 0 {
        EmptyPayload();
        r := FinishFrame([]);
      } else {
        AwaitPayload();
        r := None;
      }
    }

    lemma EmptyPayload()
      requires |part| == HEAD_SIZE && cur == ParseHead(part[..HEAD_SIZE]) && curPayloadRead == 0 == cur.len
      requires streams == before
      ensures Collected([])
    {
      assert part[HEAD_SIZE..] == [];
    }

    /** Payload octets are to come: to the stream, or to a buffer that is empty now. */
    method AwaitPayload()
      requires ValidConfig(cfg) && headerBuf.Length == HEAD_SIZE && headerLen == 0 && streams == before
      requires |part| == HEAD_SIZE && cur == ParseHead(part[..HEAD_SIZE]) && curPayloadRead == 0 < cur.len
      modifies this`controlBuf, this`inPayload
      ensures Tied() && Carried() == 0 && Boundary() == old(Boundary())
    {
      assert part[HEAD_SIZE..] == [];
      if IsDirect(cur) {
        AppendNothing(before, cur.id);
      } else {
        controlBuf := [];
      }
      inPayload := true;
    }

    /** The header arm of the loop. */
    method TakeHeader(chunk: seq<byte>, pos: nat) returns (pos': nat, r: Option<Why>)
      requires Tied() && Accounted() && !inPayload && pos < |chunk|
      modifies this`streams, this`calls, this`routeCache, this`continuationBuf, this`lastClientStreamId, this`jobs,
               this`dataLen, this`streamDataLens, this`credit, this`before, this`part, this`inPayload, this`cur,
               this`curPayloadRead, this`headerLen, this`controlBuf, headerBuf, decoder
      ensures pos < pos' <= |chunk|
      ensures Tied() && Accounted() && dataLen + Carried() <= old(dataLen + Carried()) + (pos' - pos)
      ensures Continues(cfg, old(Boundary()), old(part) + chunk[pos..pos'], r, Boundary(), part)
    {
      pos' := CollectHeader(chunk, pos);
      ContinuesSelf(cfg, Boundary(), part);
      if headerLen < HEAD_SIZE {
        return pos', None;
      }
      assert headerBuf[..headerLen] == headerBuf[..];
      r := StartFrame();
    }

    /** The payload of the current frame so far is on its stream or in a buffer. */
    ghost predicate Collected(payload: seq<byte>)
      reads this
    {
      && HEAD_SIZE <= |part|
      && curPayloadRead == |part| - HEAD_SIZE <= cur.len
      && cur == ParseHead(part[..HEAD_SIZE])
      && if IsDirect(cur) then streams == AppendData(before, cur.id, part[HEAD_SIZE..])
         else streams == before && payload == part[HEAD_SIZE..]
    }

    method CollectPayload(chunk: seq<byte>, pos: nat) returns (pos': nat)
      requires InPayload() && pos < |chunk|
      modifies this`streams, this`controlBuf, this`curPayloadRead, this`part
      ensures pos < pos' <= |chunk| && part == old(part) + chunk[pos..pos']
      ensures Collected(controlBuf) && curPayloadRead == old(curPayloadRead) + (pos' - pos)
    {
      var remaining := cur.len - curPayloadRead;
      var avail := |chunk| - pos;
      var take := if remaining < avail then remaining else avail;
      pos' := pos + take;
      var piece := chunk[pos..pos'];
      if IsDirect(cur) {
        AppendTwice(before, cur.id, part[HEAD_SIZE..], piece);
        streams := AppendData(streams, cur.id, piece);
      } else {
        controlBuf := controlBuf + piece;
      }
      curPayloadRead := curPayloadRead + take;
      assert (part + piece)[HEAD_SIZE..] == part[HEAD_SIZE..] + piece;
      assert (part + piece)[..HEAD_SIZE] == part[..HEAD_SIZE];
      part := part + piece;
    }

    /** The payload arm of the loop. */
    method TakePayload(chunk: seq<byte>, pos: nat) returns (pos': nat, r: Option<Why>)
      requires Tied() && Accounted() && inPayload && pos < |chunk|
      modifies this`streams, this`calls, this`routeCache, this`continuationBuf, this`lastClientStreamId, this`jobs,
               this`dataLen, this`streamDataLens, this`credit, this`before, this`part, this`inPayload,
               this`curPayloadRead, this`controlBuf, decoder
      ensures pos < pos' <= |chunk|
      ensures Tied() && Accounted() && dataLen + Carried() <= old(dataLen + Carried()) + (pos' - pos)
      ensures Continues(cfg, old(Boundary()), old(part) + chunk[pos..pos'], r, Boundary(), part)
    {
      ghost var core := Boundary();
      pos' := CollectPayload(chunk, pos);
      assert Boundary() == core;
      ContinuesSelf(cfg, core, part);
      if curPayloadRead < cur.len {
        return pos', None;
      }
      r := FinishFrame(controlBuf);
    }

    method FinishFrame(payload: seq<byte>) returns (r: Option<Why>)
      requires ValidConfig(cfg) && Accounted() && headerBuf.Length == HEAD_SIZE && headerLen == 0
      requires Collected(payload) && curPayloadRead == cur.len
      modifies this`streams, this`calls, this`routeCache, this`continuationBuf, this`lastClientStreamId, this`jobs,
               this`dataLen, this`streamDataLens, this`credit, this`before, this`part, this`inPayload, decoder
      ensures Tied() && Accounted() && Carried() == 0 && dataLen <= old(dataLen + curPayloadRead)
      ensures part == [] && Continues(cfg, old(Boundary()), old(part), r, Boundary(), [])
    {
      r := EndFrame(payload, part);
      NextHeader();
    }

    /** The parser waits for the next header. */
    method NextHeader()
      requires ValidConfig(cfg) && headerBuf.Length == HEAD_SIZE && headerLen == 0 && streams == before
      modifies this`part, this`inPayload
      ensures Tied() && Carried() == 0 && part == [] && Boundary() == old(Boundary())
    {
      ghost var core := Boundary();
      part := [];
      assert headerBuf[..0] == [];
      inPayload := false;
      assert Boundary() == core;
    }

    /** The connection is where a run ends: waiting for the rest of a frame, or stopped with the same output. */
    ghost predicate Agrees(ran: Ran, r: Option<Why>)
      reads this, decoder
    {
      match ran
      case Running(core, rest) => r == None && Boundary() == core && part == rest
      case Stopped(core, why) => r == Some(why) && calls == core.calls && Writes(jobs) == core.writes
    }

    /** A read starts with no batch. */
    method BeginRead(ghost n: nat)
      requires Settled()
      modifies this`dataLen, this`streamDataLens, this`limit
      ensures Accounted() && dataLen == 0 && limit == Max(old(limit), U24 + n)
      ensures Boundary() == old(Boundary()) && Tied() == old(Tied()) && Carried() == old(Carried())
    {
      OwnStay(jobs, credit, limit, [], Max(limit, U24 + n));
      assert credit + [] == credit;
      limit := Max(limit, U24 + n);
      dataLen := 0;
      streamDataLens := [];
    }

    /** The octets taken so far have been run, up to the part of a frame. */
    ghost predicate Reached()
      requires ValidConfig(cfg)
      reads this, decoder
    {
      RunBytes(cfg, FRESH, octets) == Running(Boundary(), part)
    }

    /** The octets of a DATA frame that is being read. */
    ghost function InFlight(): nat
      reads this`inPayload, this`cur, this`curPayloadRead
    {
      if inPayload && cur.kind == FrameKind.Data then curPayloadRead else 0
    }

    /**
     Every octet of DATA taken so far was sent as credit, is in the batch of this read, or is of the frame
     being read: for the connection and for each stream.
    */
    ghost predicate Conserved()
      reads this`octets, this`jobs, this`dataLen, this`streamDataLens, this`inPayload, this`cur, this`curPayloadRead
    {
      && Sum(DataCounts(octets)) == SentCredit(jobs) + dataLen + InFlight()
      && forall id :: SumFor(DataCounts(octets), id) ==
           SentFor(jobs, id) + SumFor(streamDataLens, id) + (if id == cur.id then InFlight() else 0)
    }

    lemma IsConserved()
      requires Tied() && Accounted() && Reached()
      ensures Conserved()
    {
      CountsBalance(cfg, octets, Boundary(), part, jobs, limit, dataLen, streamDataLens);
      if inPayload && cur.kind == FrameKind.Data {
        forall id {
          OneCount([], (cur.id, curPayloadRead), id);
        }
        assert [] + [(cur.id, curPayloadRead)] == PartCount(part);
      } else {
        assert PartCount(part) == [];
      }
    }

    /** One turn of the loop takes at least one octet, and accounts for all so far. */
    method TakeTurn(chunk: seq<byte>, pos: nat) returns (pos': nat, r: Option<Why>)
      requires Tied() && Accounted() && Reached() && pos < |chunk|
      modifies this, headerBuf, decoder
      ensures pos < pos' <= |chunk| && octets == old(octets) + chunk[pos..pos'] && limit == old(limit)
      ensures Agrees(RunBytes(cfg, FRESH, octets), r)
      ensures r == None ==> Tied() && Accounted() && Conserved()
      ensures r == None ==> dataLen + Carried() <= old(dataLen + Carried()) + (pos' - pos)
    {
      ghost var core, buf := Boundary(), part;
      if inPayload {
        pos', r := TakePayload(chunk, pos);
      } else {
        pos', r := TakeHeader(chunk, pos);
      }
      octets := octets + chunk[pos..pos'];
      if r == None {
        PartIsIncomplete();
      }
      TurnLeads(cfg, old(octets), core, buf, chunk[pos..pos'], r, Boundary(), part);
      if r == None {
        IsConserved();
      }
    }

    /** The inner loop over the octets of one read. */
    method ReadChunk(chunk: seq<byte>) returns (r: Option<Why>)
      requires Tied() && Settled() && Reached()
      modifies this, headerBuf, decoder
      ensures r == None ==> Tied() && Accounted() && dataLen <= old(Carried()) + |chunk|
      ensures limit == Max(old(limit), U24 + |chunk|) && (r == None ==> octets == old(octets) + chunk)
      ensures Agrees(RunBytes(cfg, FRESH, old(octets) + chunk), r)
    {
      BeginRead(|chunk|);
      var pos := 0;
      r := None;
      assert chunk[..0] == [];
      while pos < |chunk|
        invariant 0 <= pos <= |chunk| && r == None
        invariant Tied() && Accounted() && limit == Max(old(limit), U24 + |chunk|)
        invariant dataLen + Carried() <= old(Carried()) + pos
        invariant Reached() && octets == old(octets) + chunk[..pos]
        decreases |chunk| - pos
      {
        ghost var from := pos;
        pos, r := TakeTurn(chunk, pos);
        Advance(old(octets), chunk, from, pos);
        if r.Some? {
          StopsInside(cfg, old(octets), chunk, pos);
          return r;
        }
      }
      assert chunk[..pos] == chunk;
    }

    /**
     One read. The octets fed so far have the effect of the frames found by repeated parsing, and
     credit for the DATA frames this read completed is sent at its end.
    */
    method Feed(chunk: seq<byte>) returns (r: Option<Why>)
      requires Tied() && Settled() && Reached() && chunk != []
      modifies this, headerBuf, decoder
      ensures Agrees(RunBytes(cfg, FRESH, old(octets) + chunk), r)
      ensures r == None ==> Tied() && Settled() && octets == old(octets) + chunk
      ensures r == None ==> dataLen <= old(Carried()) + |chunk| < U24 + |chunk|
      ensures limit == Max(old(limit), U24 + |chunk|)
      ensures r == None && dataLen > 0 ==>
                jobs != [] && jobs[|jobs| - 1].WindowUpdates? && jobs[|jobs| - 1].len == dataLen
    {
      CarriedIsSmall();
      r := ReadChunk(chunk);
      if r == None {
        assert Reached();
        SendWindowUpdate();
        assert Reached();
      }
    }

    /** The credit of the read, if any, goes to the writer as one batch. */
    method SendWindowUpdate()
      requires ValidConfig(cfg) && Accounted() && dataLen < limit
      modifies this`jobs, this`streamDataLens
      ensures Settled() && Tied() == old(Tied()) && Boundary() == old(Boundary()) && Reached() == old(Reached())
      ensures jobs == if dataLen > 0 then old(jobs) + [Writer.WindowUpdates(dataLen, old(streamDataLens))]
                      else old(jobs)
    {
      if dataLen > 0 {
        BatchSettles(credit, jobs, limit, dataLen, streamDataLens);
        jobs := jobs + [Writer.WindowUpdates(dataLen, streamDataLens)];
        streamDataLens := [];
      } else {
        NothingSettles(credit, jobs, limit, streamDataLens);
      }
    }

    lemma CarriedIsSmall()
      requires Tied()
      ensures Carried() < U24
    {
      if inPayload {
        assert cur == ParseHead(part[..HEAD_SIZE]);
      }
    }

    lemma PartIsIncomplete()
      requires Tied()
      ensures ParseFrame(part) == None
    {
      if inPayload {
        assert cur == ParseHead(part[..HEAD_SIZE]);
      }
    }
  }

  lemma {:induction false} ConcatAppend(a: seq<seq<byte>>, b: seq<seq<byte>>)
    ensures Concat(a + b) == Concat(a) + Concat(b)
    decreases |b|
  {
    if b == [] {
      assert a + b == a;
    } else {
      var b' := b[..|b| - 1];
      assert (a + b)[..|a + b| - 1] == a + b';
      ConcatAppend(a, b');
      AppendAssoc(Concat(a), Concat(b'), b[|b| - 1]);
    }
  }

  function Longest(chunks: seq<seq<byte>>): nat {
    if chunks == [] then 0 else Max(Longest(chunks[..|chunks| - 1]), |chunks[|chunks| - 1]|)
  }

  /** Between two reads: the frames so far have had their effect, and what is owed for them is sent. */
  ghost predicate Served(cfg: Config, fs: seq<Frame>, core: Core, jobs: seq<Writer.Job>, limit: nat)
    requires |cfg.code| == 257
  {
    && Runs.After(cfg, FRESH, fs) == Next(core)
    && (forall i :: 0 <= i < |fs| ==> fs[i].id < U31)
    && Writes(jobs) == core.writes
    && Settles(core.credit, jobs, limit)
  }

  lemma {:induction false} ParsedIds(buf: seq<byte>)
    ensures forall i :: 0 <= i < |ParseFrames(buf).0| ==> ParseFrames(buf).0[i].id < U31
    decreases |buf|
  {
    match ParseFrame(buf)
    case None =>
    case Some(f) => ParsedIds(buf[FrameSize(f)..]);
  }

  /**
   handle_connection: reads until the peer closes (None) or a frame stops it. However its octets
   are cut into reads, a connection ends where the frames of all the octets lead.
  */
  method HandleConnection(cfg: Config, chunks: seq<seq<byte>>) returns (c: Connection, r: Option<Why>)
    requires ValidConfig(cfg)
    requires forall i :: 0 <= i < |chunks| ==> chunks[i] != []
    ensures fresh(c) && c.cfg == cfg
    ensures c.Agrees(RunBytes(cfg, FRESH, Concat(chunks)), r)
    ensures r == None ==> c.limit == U24 + Longest(chunks)
    ensures r == None ==> Served(cfg, ParseFrames(Concat(chunks)).0, c.Boundary(), c.jobs, c.limit)
  {
    c := new Connection(cfg);
    r := None;
    var i := 0;
    while i < |chunks| && r == None
      invariant 0 <= i <= |chunks|
      invariant c.cfg == cfg && fresh(c) && fresh(c.decoder) && fresh(c.headerBuf)
      invariant c.Agrees(RunBytes(cfg, FRESH, Concat(chunks[..i])), r)
      invariant r == None ==> c.Tied() && c.Settled() && c.octets == Concat(chunks[..i])
      invariant r == None ==> c.limit == U24 + Longest(chunks[..i])
      decreases |chunks| - i
    {
      assert chunks[..i + 1][..i] == chunks[..i];
      r := c.Feed(chunks[i]);
      i := i + 1;
    }
    if r.Some? {
      assert chunks[..i] + chunks[i..] == chunks;
      ConcatAppend(chunks[..i], chunks[i..]);
      StaysStopped(cfg, Concat(chunks[..i]), Concat(chunks[i..]));
    } else {
      assert chunks[..i] == chunks;
      Runs.OctetsAreFrames(cfg, FRESH, Concat(chunks));
      ParsedIds(Concat(chunks));
    }
  }

  /** The server reads the message of a reply as it reads that of a request. */
  lemma ReplyIsDecoded(cfg: Config, msg: seq<byte>, encoding: HpackDecoder.GrpcEncoding)
    ensures DecodeMessage(cfg, Writer.MessagePayload(msg), encoding) == Ok(msg)
  {
    var payload := Writer.MessagePayload(msg);
    assert payload[5..] == msg;
  }
}
