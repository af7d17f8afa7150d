/**
 What a connection does with each frame (process_frame, pajamax/src/connection.rs), as a step from
 one state to the next, and the zero-copy path beside it.
*/
module Frames {
  import opened Wrappers
  import opened Bits
  import opened Http2
  import opened HpackDecoder
  import opened RouteCache
  import Huffman

  datatype Stream = Stream(id: nat, isvc: nat, disc: nat, encoding: GrpcEncoding, data: seq<byte>)

  /** A header block that waits for its CONTINUATION frames. */
  datatype Pending = Pending(id: nat, end: bool, block: seq<byte>)

  /** A handler started: service, method, message and stream. */
  datatype Call = Call(isvc: nat, disc: nat, msg: seq<byte>, id: nat)

  /** `inflate` stands for the decompression libraries. */
  datatype Config = Config(
    code: Huffman.Code,
    services: seq<Service>,
    maxStreams: nat,
    inflate: (GrpcEncoding, seq<byte>) -> Option<seq<byte>>)

  ghost predicate ValidConfig(cfg: Config) {
    Huffman.ValidLengths(cfg.code)
  }

  /**
   The state of a connection between two frames. `credit` lists the DATA frames counted, each with
   its stream and payload length, `writes` the octets of control replies, `calls` the handlers.
  */
  datatype Core = Core(
    streams: seq<Stream>,
    dec: State,
    cache: seq<Route>,
    cont: Option<Pending>,
    last: nat,
    credit: seq<(nat, nat)>,
    calls: seq<Call>,
    writes: seq<seq<byte>>)

  const FRESH: Core := Core([], INITIAL, [], None, 0, [], [], [])

  datatype Why = PeerLeft | Failed(error: Error) | Panicked

  datatype Outcome = Next(core: Core) | Stop(why: Why)

  function Fail(e: Error): Outcome {
    Stop(Failed(e))
  }

  // ---------------------------------------------------------------- the stream table

  /** The position of a stream, counted from i. */
  function FindFrom(streams: seq<Stream>, id: nat, i: nat): (r: Option<nat>)
    requires i <= |streams|
    ensures r.Some? ==> i <= r.value < |streams| && streams[r.value].id == id
    ensures r.Some? ==> forall j :: i <= j < r.value ==> streams[j].id != id
    ensures r.None? ==> forall j :: i <= j < |streams| ==> streams[j].id != id
    decreases |streams| - i
  {
    if i == |streams| then None
    else if streams[i].id == id then Some(i)
    else FindFrom(streams, id, i + 1)
  }

  function Find(streams: seq<Stream>, id: nat): (r: Option<nat>)
    ensures r.Some? ==> r.value < |streams| && streams[r.value].id == id
    ensures r.None? ==> forall j :: 0 <= j < |streams| ==> streams[j].id != id
  {
    FindFrom(streams, id, 0)
  }

  function Remove(streams: seq<Stream>, i: nat): seq<Stream>
    requires i < |streams|
  {
    streams[..i] + streams[i + 1..]
  }

  /** Appends to the data of a stream, if it is open. */
  function AppendData(streams: seq<Stream>, id: nat, data: seq<byte>): (r: seq<Stream>)
    ensures |r| == |streams|
  {
    match Find(streams, id)
    case None => streams
    case Some(i) => streams[i := streams[i].(data := streams[i].data + data)]
  }

  // ---------------------------------------------------------------- messages and replies

  /** decode_grpc_message: the five octets before the message, and decompression if flagged. */
  function DecodeMessage(cfg: Config, data: seq<byte>, encoding: GrpcEncoding): Result<seq<byte>> {
    if |data| < 5 then Err(InvalidHttp2)
    else if data[0] == 0 then Ok(data[5..])
    else if encoding == Identity then Err(InvalidHttp2)
    else
      match cfg.inflate(encoding, data[5..])
      case Some(msg) => Ok(msg)
      case None => Err(IoFail)
  }

  function RstBytes(id: nat): seq<byte> {
    FrameBytes(Frame(Reset, 0, id, BeBytes(7)))
  }

  function SettingsAckBytes(): seq<byte> {
    FrameBytes(Frame(Settings, ACK, 0, []))
  }

  function PingAckBytes(payload: seq<byte>): seq<byte> {
    FrameBytes(Frame(Ping, ACK, 0, payload))
  }

  // ---------------------------------------------------------------- the kinds of frames

  function Charge(core: Core, id: nat, len: nat): Core {
    core.(credit := core.credit + [(id, len)])
  }

  /** The last DATA frame of an open stream: the stream leaves the table and its handler starts. */
  function Complete(cfg: Config, core: Core, i: nat): Outcome
    requires i < |core.streams|
  {
    var s := core.streams[i];
    match DecodeMessage(cfg, s.data, s.encoding)
    case Ok(msg) =>
      Next(core.(streams := Remove(core.streams, i), calls := core.calls + [Call(s.isvc, s.disc, msg, s.id)]))
    case Err(e) => Fail(e)
    case Panic => Stop(Panicked)
  }

  /** A DATA frame whose content is already on its stream. */
  function DataArrived(cfg: Config, core: Core, id: nat, end: bool): Outcome {
    match Find(core.streams, id)
    case None => Next(core)
    case Some(i) => if end then Complete(cfg, core, i) else Next(core)
  }

  function OnData(cfg: Config, core: Core, f: Frame): Outcome {
    match StripPadding(f.flags, f.payload)
    case Ok(content) =>
      var charged := Charge(core, f.id, |f.payload|);
      DataArrived(cfg, charged.(streams := AppendData(core.streams, f.id, content)), f.id, IsEndStream(f.flags))
    case Err(e) => Fail(e)
    case Panic => Stop(Panicked)
  }

  /** A complete header block: its route, and a handler or a stream that waits for DATA. */
  function OnBlock(cfg: Config, core: Core, id: nat, end: bool, block: seq<byte>): Outcome
    requires |cfg.code| == 257
  {
    match ResolveResult(cfg.code, cfg.services, core.dec, core.cache, block)
    case Ok(Resolved(dec, cache, (isvc, disc), encoding)) =>
      var core' := core.(dec := dec, cache := cache);
      Next(if end then core'.(calls := core.calls + [Call(isvc, disc, [], id)])
           else core'.(streams := core.streams + [Stream(id, isvc, disc, encoding, [])]))
    case Err(e) => Fail(e)
    case Panic => Stop(Panicked)
  }

  function OnHeaders(cfg: Config, core: Core, f: Frame): Outcome
    requires |cfg.code| == 257
  {
    if f.id % 2 == 0 || f.id <= core.last then Fail(InvalidHttp2)
    else
      var core' := core.(last := f.id);
      if |core.streams| >= cfg.maxStreams then
        Next(core'.(writes := core.writes + [RstBytes(f.id)]))
      else
        match StripHeaders(f.flags, f.payload)
        case Ok(block) =>
          if IsEndHeaders(f.flags) then OnBlock(cfg, core', f.id, IsEndStream(f.flags), block)
          else Next(core'.(cont := Some(Pending(f.id, IsEndStream(f.flags), block))))
        case Err(e) => Fail(e)
        case Panic => Stop(Panicked)
  }

  function OnContinuation(cfg: Config, core: Core, f: Frame): Outcome
    requires |cfg.code| == 257
  {
    match core.cont
    case None => Fail(InvalidHttp2)
    case Some(Pending(id, end, block)) =>
      var whole := block + f.payload;
      if IsEndHeaders(f.flags) then OnBlock(cfg, core.(cont := None), id, end, whole)
      else Next(core.(cont := Some(Pending(id, end, whole))))
  }

  function OnControl(core: Core, f: Frame): Outcome {
    match f.kind
    case Settings =>
      if f.id != 0 then Fail(InvalidHttp2)
      else if IsAck(f.flags) then Next(core)
      else Next(core.(writes := core.writes + [SettingsAckBytes()]))
    case Ping =>
      if f.id != 0 then Fail(InvalidHttp2)
      else if IsAck(f.flags) then Next(core)
      else if |f.payload| != 8 then Stop(Panicked)
      else Next(core.(writes := core.writes + [PingAckBytes(f.payload)]))
    case GoAway =>
      if f.id != 0 || |f.payload| < 8 then Fail(InvalidHttp2) else Stop(PeerLeft)
    case Reset =>
      if |f.payload| != 4 then Fail(InvalidHttp2)
      else (
        match Find(core.streams, f.id)
        case Some(i) => Next(core.(streams := Remove(core.streams, i)))
        case None => Next(core)
      )
    case WindowUpdate =>
      if |f.payload| != 4 || FromBe(f.payload) % U31 == 0 then Fail(InvalidHttp2) else Next(core)
    case _ => Next(core)
  }

  /** process_frame */
  function ProcessFrame(cfg: Config, core: Core, f: Frame): Outcome
    requires |cfg.code| == 257
  {
    if core.cont.Some? && (f.kind != Continuation || f.id != core.cont.value.id) then Fail(InvalidHttp2)
    else
      match f.kind
      case Data => if f.id == 0 then Fail(InvalidHttp2) else OnData(cfg, core, f)
      case Headers => if f.id == 0 then Fail(InvalidHttp2) else OnHeaders(cfg, core, f)
      case Continuation => OnContinuation(cfg, core, f)
      case _ => OnControl(core, f)
  }

  /** The frames whose payload goes straight to its stream, without process_frame. */
  predicate IsDirect(h: FrameHeader) {
    h.kind == FrameKind.Data && !IsPadded(h.flags) && h.len > 0
  }

  function HeadOf(f: Frame): FrameHeader {
    FrameHeader(|f.payload|, f.kind, f.flags, f.id)
  }

  function DirectData(cfg: Config, core: Core, f: Frame): Outcome {
    var charged := Charge(core, f.id, |f.payload|);
    DataArrived(cfg, charged.(streams := AppendData(core.streams, f.id, f.payload)), f.id, IsEndStream(f.flags))
  }

  /** What a connection does with a whole frame. */
  function FrameStep(cfg: Config, core: Core, f: Frame): Outcome
    requires |cfg.code| == 257
  {
    if IsDirect(HeadOf(f)) then DirectData(cfg, core, f) else ProcessFrame(cfg, core, f)
  }

  lemma AppendTwice(streams: seq<Stream>, id: nat, a: seq<byte>, b: seq<byte>)
    ensures AppendData(AppendData(streams, id, a), id, b) == AppendData(streams, id, a + b)
  {
    match Find(streams, id)
    case None =>
    case Some(i) =>
      var once := AppendData(streams, id, a);
      FindStays(streams, once, id, 0);
      AppendAssoc(streams[i].data, a, b);
  }

  /** Data does not move streams. */
  lemma {:induction false} FindStays(a: seq<Stream>, b: seq<Stream>, id: nat, i: nat)
    requires |a| == |b| && i <= |a|
    requires forall j :: 0 <= j < |a| ==> a[j].id == b[j].id
    ensures FindFrom(a, id, i) == FindFrom(b, id, i)
    decreases |a| - i
  {
    if i < |a| {
      FindStays(a, b, id, i + 1);
    }
  }

  function AppendPieces(streams: seq<Stream>, id: nat, pieces: seq<seq<byte>>): seq<Stream> {
    if pieces == [] then streams
    else AppendData(AppendPieces(streams, id, pieces[..|pieces| - 1]), id, pieces[|pieces| - 1])
  }

  function Concat(pieces: seq<seq<byte>>): seq<byte> {
    if pieces == [] then [] else Concat(pieces[..|pieces| - 1]) + pieces[|pieces| - 1]
  }

  lemma {:induction false} PiecesAreWhole(streams: seq<Stream>, id: nat, pieces: seq<seq<byte>>)
    ensures AppendPieces(streams, id, pieces) == AppendData(streams, id, Concat(pieces))
    decreases |pieces|
  {
    if pieces == [] {
      match Find(streams, id)
      case None =>
      case Some(i) => assert streams[i].data + [] == streams[i].data;
    } else {
      PiecesAreWhole(streams, id, pieces[..|pieces| - 1]);
      AppendTwice(streams, id, Concat(pieces[..|pieces| - 1]), pieces[|pieces| - 1]);
    }
  }

  /** END_STREAM on an open stream whose octets are then no message. */
  predicate EndsBadly(core: Core, f: Frame) {
    && IsEndStream(f.flags)
    && match Find(core.streams, f.id)
       case None => false
       case Some(i) =>
         var s := core.streams[i];
         var data := s.data + f.payload;
         |data| < 5 || (data[0] != 0 && s.encoding == Identity)
  }

  /**
   The zero-copy path, with the payload appended in whatever pieces it was read, does what
   process_frame would do with the collected payload, exactly when no CONTINUATION is awaited
   and the stream is not 0, or the frame ends a stream with octets that are no message.
  */
  lemma DirectRefinesBuffered(cfg: Config, core: Core, f: Frame, pieces: seq<seq<byte>>)
    requires |cfg.code| == 257 && IsDirect(HeadOf(f)) && Concat(pieces) == f.payload
    ensures var charged := Charge(core, f.id, |f.payload|);
            var direct := DataArrived(cfg, charged.(streams := AppendPieces(core.streams, f.id, pieces)), f.id,
              IsEndStream(f.flags));
            direct == ProcessFrame(cfg, core, f) <==> (core.cont.None? && f.id != 0) || EndsBadly(core, f)
  {
    PiecesAreWhole(core.streams, f.id, pieces);
    match Find(core.streams, f.id)
    case None =>
    case Some(i) => FindStays(core.streams, AppendData(core.streams, f.id, f.payload), f.id, 0);
  }

  /** Reachable: DATA on stream 0 is counted and dropped, where process_frame would refuse it. */
  lemma DataOnZero(cfg: Config)
    requires |cfg.code| == 257
    ensures var f := Frame(FrameKind.Data, 0, 0, [0]);
            && FrameStep(cfg, FRESH, f) == Next(FRESH.(credit := [(0, 1)]))
            && ProcessFrame(cfg, FRESH, f) == Fail(InvalidHttp2)
  {
    assert [] + [(0, 1)] == [(0, 1)];
  }

  /** Reachable: so is DATA between HEADERS and CONTINUATION. */
  lemma DataBeforeContinuation(cfg: Config)
    requires |cfg.code| == 257 && cfg.maxStreams > 0
    ensures var core := FRESH.(last := 1, cont := Some(Pending(1, false, [])));
            var f := Frame(FrameKind.Data, 0, 1, [0]);
            && FrameStep(cfg, FRESH, Frame(Headers, 0, 1, [])) == Next(core)
            && FrameStep(cfg, core, f) == Next(core.(credit := [(1, 1)]))
            && ProcessFrame(cfg, core, f) == Fail(InvalidHttp2)
  {
    assert [] + [(1, 1)] == [(1, 1)];
  }

  /** The header block that a frame completes, if it gets so far. */
  function BlockOf(cfg: Config, core: Core, f: Frame): Option<seq<byte>> {
    if !IsEndHeaders(f.flags) then None
    else if f.kind == Continuation then
      if core.cont.Some? && core.cont.value.id == f.id then Some(core.cont.value.block + f.payload) else None
    else if f.kind == Headers && core.cont.None? && f.id % 2 == 1 && core.last < f.id && |core.streams| < cfg.maxStreams
    then
      match StripHeaders(f.flags, f.payload)
      case Ok(block) => Some(block)
      case _ => None
    else None
  }

  /**
   A frame panics if and only if it is a PING to be answered whose payload is not eight octets, or it
   completes a header block that panics.
  */
  lemma FramePanicsExact(cfg: Config, core: Core, f: Frame)
    requires |cfg.code| == 257
    ensures FrameStep(cfg, core, f) == Stop(Panicked) <==>
            || (f.kind == Ping && core.cont.None? && f.id == 0 && !IsAck(f.flags) && |f.payload| != 8)
            || (BlockOf(cfg, core, f).Some? &&
                ResolveResult(cfg.code, cfg.services, core.dec, core.cache, BlockOf(cfg, core, f).value) == Panic)
  {}

  /** Reachable: a PING without payload, as the first frame. */
  lemma EmptyPingPanics(cfg: Config)
    requires |cfg.code| == 257
    ensures FrameStep(cfg, FRESH, Frame(Ping, 0, 0, [])) == Stop(Panicked)
  {}

  // ---------------------------------------------------------------- runs

  datatype Ran = Running(core: Core, rest: seq<byte>) | Stopped(core: Core, why: Why)

  /** Applies the frames found by repeated parsing, until one stops the connection. */
  function RunBytes(cfg: Config, core: Core, buf: seq<byte>): Ran
    requires |cfg.code| == 257
    decreases |buf|, 0
  {
    match ParseFrame(buf)
    case None => Running(core, buf)
    case Some(f) => RunFrame(cfg, core, f, buf[FrameSize(f)..])
  }

  /** Applies a frame, and then those found behind it. */
  function RunFrame(cfg: Config, core: Core, f: Frame, rest: seq<byte>): Ran
    requires |cfg.code| == 257
    decreases |rest|, 1
  {
    match FrameStep(cfg, core, f)
    case Next(core') => RunBytes(cfg, core', rest)
    case Stop(why) => Stopped(core, why)
  }

  /** A frame that is there does not change when more octets arrive. */
  lemma ParseIsStable(a: seq<byte>, b: seq<byte>)
    requires ParseFrame(a).Some?
    ensures ParseFrame(a + b) == ParseFrame(a)
    ensures FrameSize(ParseFrame(a).value) <= |a|
    ensures (a + b)[FrameSize(ParseFrame(a).value)..] == a[FrameSize(ParseFrame(a).value)..] + b
  {
    var f := ParseFrame(a).value;
    assert (a + b)[..HEAD_SIZE] == a[..HEAD_SIZE];
    assert (a + b)[HEAD_SIZE..FrameSize(f)] == a[HEAD_SIZE..FrameSize(f)];
  }

  /** Where the octets are cut does not matter. */
  lemma {:induction false} SplitRun(cfg: Config, core: Core, a: seq<byte>, b: seq<byte>)
    requires |cfg.code| == 257
    ensures RunBytes(cfg, core, a + b) ==
            match RunBytes(cfg, core, a)
            case Running(core', rest) => RunBytes(cfg, core', rest + b)
            case Stopped(core', why) => Stopped(core', why)
    decreases |a|
  {
    match ParseFrame(a)
    case None =>
    case Some(f) =>
      ParseIsStable(a, b);
      match FrameStep(cfg, core, f)
      case Next(core') => SplitRun(cfg, core', a[FrameSize(f)..], b);
      case Stop(_) =>
  }

  lemma AppendNothing(streams: seq<Stream>, id: nat)
    ensures AppendData(streams, id, []) == streams
  {
    match Find(streams, id)
    case None =>
    case Some(i) => assert streams[i].data + [] == streams[i].data;
  }

  /** A run whose first frame is complete takes its step and goes on behind it. */
  lemma RunStep(cfg: Config, core: Core, frame: seq<byte>, rest: seq<byte>)
    requires |cfg.code| == 257
    requires HEAD_SIZE <= |frame| && ParseHead(frame[..HEAD_SIZE]).len == |frame| - HEAD_SIZE
    ensures var h := ParseHead(frame[..HEAD_SIZE]);
            var f := Frame(h.kind, h.flags, h.id, frame[HEAD_SIZE..]);
            RunBytes(cfg, core, frame + rest) == RunFrame(cfg, core, f, rest)
  {
    var head, payload := frame[..HEAD_SIZE], frame[HEAD_SIZE..];
    assert frame + rest == head + (payload + rest);
    ParseAfterHead(head, payload, rest);
  }
}
