/**
 Which frames stop a connection (process_frame, pajamax/src/connection.rs), and which pass without a
 trace.
*/
module Stops {
  import opened Wrappers
  import opened Bits
  import opened Http2
  import opened HpackDecoder
  import opened RouteCache
  import opened Frames
  import opened Ledger
  import opened Runs

  /** Octets that are no message: too few for the prefix, or flagged and not to be inflated. */
  predicate IsNoMessage(cfg: Config, data: seq<byte>, encoding: GrpcEncoding) {
    |data| < 5 || (data[0] != 0 && (encoding == Identity || cfg.inflate(encoding, data[5..]) == None))
  }

  /** The frame ends a stream of the table with octets that are no message. */
  ghost predicate EndsWithout(cfg: Config, core: Core, f: Frame, content: seq<byte>) {
    && f.flags % 2 == 1
    && exists i :: 0 <= i < |core.streams| && core.streams[i].id == f.id
                   && IsNoMessage(cfg, core.streams[i].data + content, core.streams[i].encoding)
  }

  /** DATA with octets and without padding is not checked. */
  ghost predicate BadData(cfg: Config, core: Core, f: Frame) {
    if f.flags / 8 % 2 == 0 && f.payload != [] then EndsWithout(cfg, core, f, f.payload)
    else
      || core.cont.Some? || f.id == 0
      || ContentOf(f) == None
      || EndsWithout(cfg, core, f, ContentOf(f).value)
  }

  ghost predicate BadBlock(cfg: Config, core: Core, f: Frame, block: seq<byte>)
    requires |cfg.code| == 257
  {
    f.flags / 4 % 2 == 1 && !ResolveResult(cfg.code, cfg.services, core.dec, core.cache, block).Ok?
  }

  /** HEADERS that are refused are not looked into. */
  ghost predicate BadHeaders(cfg: Config, core: Core, f: Frame)
    requires |cfg.code| == 257
  {
    || core.cont.Some? || f.id % 2 == 0 || f.id <= core.last
    || (|core.streams| < cfg.maxStreams && (BlockIn(f) == None || BadBlock(cfg, core, f, BlockIn(f).value)))
  }

  ghost predicate BadContinuation(cfg: Config, core: Core, f: Frame)
    requires |cfg.code| == 257
  {
    || core.cont.None? || core.cont.value.id != f.id
    || BadBlock(cfg, core, f, core.cont.value.block + f.payload)
  }

  /** An increment of zero, the reserved bit aside. */
  predicate IsZero(payload: seq<byte>)
    requires |payload| == 4
  {
    payload[0] % 128 == 0 && payload[1] == 0 && payload[2] == 0 && payload[3] == 0
  }

  predicate BadControl(f: Frame) {
    match f.kind
    case Settings => f.id != 0
    case Ping => f.id != 0 || (f.flags % 2 == 0 && |f.payload| != 8)
    case GoAway => true
    case Reset => |f.payload| != 4
    case WindowUpdate => |f.payload| != 4 || IsZero(f.payload)
    case _ => false
  }

  ghost predicate IsBad(cfg: Config, core: Core, f: Frame)
    requires |cfg.code| == 257
  {
    match f.kind
    case Data => BadData(cfg, core, f)
    case Headers => BadHeaders(cfg, core, f)
    case Continuation => BadContinuation(cfg, core, f)
    case _ => core.cont.Some? || BadControl(f)
  }

  lemma DecodeFails(cfg: Config, data: seq<byte>, encoding: GrpcEncoding)
    ensures !DecodeMessage(cfg, data, encoding).Ok? <==> IsNoMessage(cfg, data, encoding)
    ensures DecodeMessage(cfg, data, encoding) != Panic
  {}

  /** Content for a stream of the table, whose ids are distinct. */
  lemma ArrivedStops(cfg: Config, core: Core, charged: Core, f: Frame, content: seq<byte>)
    requires Increasing(core.streams) && charged.streams == AppendData(core.streams, f.id, content)
    ensures DataArrived(cfg, charged, f.id, IsEndStream(f.flags)).Stop? <==> EndsWithout(cfg, core, f, content)
  {
    match Find(core.streams, f.id)
    case None =>
    case Some(i) =>
      var s := core.streams[i];
      FindStays(core.streams, charged.streams, f.id, 0);
      DecodeFails(cfg, s.data + content, s.encoding);
  }

  lemma DataStops(cfg: Config, core: Core, f: Frame)
    requires |cfg.code| == 257 && Increasing(core.streams) && f.kind == FrameKind.Data
    ensures FrameStep(cfg, core, f).Stop? <==> BadData(cfg, core, f)
  {
    ContentIsStripped(f);
    if IsDirect(HeadOf(f)) {
      ArrivedStops(cfg, core, Charge(core, f.id, |f.payload|).(streams := AppendData(core.streams, f.id, f.payload)), f,
        f.payload);
    } else if ContentOf(f).Some? {
      var content := ContentOf(f).value;
      ArrivedStops(cfg, core, Charge(core, f.id, |f.payload|).(streams := AppendData(core.streams, f.id, content)), f,
        content);
    }
  }

  lemma BlockStops(cfg: Config, core: Core, id: nat, end: bool, block: seq<byte>)
    requires |cfg.code| == 257
    ensures OnBlock(cfg, core, id, end, block).Stop? <==>
            !ResolveResult(cfg.code, cfg.services, core.dec, core.cache, block).Ok?
  {}

  lemma HeadersStop(cfg: Config, core: Core, f: Frame)
    requires |cfg.code| == 257 && f.kind == Headers
    ensures FrameStep(cfg, core, f).Stop? <==> BadHeaders(cfg, core, f)
  {
    BlockIsStripped(f);
    if BlockIn(f).Some? {
      BlockStops(cfg, core.(last := f.id), f.id, IsEndStream(f.flags), BlockIn(f).value);
    }
  }

  lemma ContinuationStops(cfg: Config, core: Core, f: Frame)
    requires |cfg.code| == 257 && f.kind == Continuation
    ensures FrameStep(cfg, core, f).Stop? <==> BadContinuation(cfg, core, f)
  {
    if core.cont.Some? {
      var Pending(id, end, block) := core.cont.value;
      BlockStops(cfg, core.(cont := None), id, end, block + f.payload);
    }
  }

  lemma ControlStops(core: Core, f: Frame)
    requires !f.kind.Data? && !f.kind.Headers? && !f.kind.Continuation?
    ensures OnControl(core, f).Stop? <==> BadControl(f)
  {
    if f.kind == WindowUpdate && |f.payload| == 4 {
      ZeroIncrement(f.payload);
    }
  }

  lemma ZeroIncrement(payload: seq<byte>)
    requires |payload| == 4
    ensures FromBe(payload) % U31 == 0 <==> IsZero(payload)
  {
    var low := FromBe(payload) - (payload[0] / 128) * U31;
    assert payload[0] == 128 * (payload[0] / 128) + payload[0] % 128;
    assert 0 <= low < U31;
    assert FromBe(payload) == (payload[0] / 128) * U31 + low;
  }

  /**
   A frame stops a connection if and only if it is one of these; GOAWAY is the one that ends it without an
   error, and no frame but those of a stream or its header block changes more than the replies.
  */
  lemma StopsExact(cfg: Config, core: Core, f: Frame)
    requires |cfg.code| == 257 && Increasing(core.streams)
    ensures FrameStep(cfg, core, f).Stop? <==> IsBad(cfg, core, f)
    ensures FrameStep(cfg, core, f) == Stop(PeerLeft) <==>
            f.kind == GoAway && core.cont.None? && f.id == 0 && |f.payload| >= 8
    ensures f.kind.Priority? || f.kind.PushPromise? || f.kind.Unknown? || f.kind.WindowUpdate? ==>
              !IsBad(cfg, core, f) ==> FrameStep(cfg, core, f) == Next(core)
    ensures f.kind.Settings? || f.kind.Ping? ==>
              !IsBad(cfg, core, f) ==>
                var core' := FrameStep(cfg, core, f).core;
                core' == core.(writes := core'.writes)
  {
    if f.kind == FrameKind.Data {
      DataStops(cfg, core, f);
    } else if f.kind == Headers {
      HeadersStop(cfg, core, f);
    } else if f.kind == Continuation {
      ContinuationStops(cfg, core, f);
    } else {
      ControlStops(core, f);
    }
  }

  /** Frame n of a run comes, and is not bad there. */
  ghost predicate Passes(cfg: Config, fs: seq<Frame>, n: nat)
    requires |cfg.code| == 257 && n < |fs|
  {
    After(cfg, FRESH, fs[..n]).Next? && !IsBad(cfg, After(cfg, FRESH, fs[..n]).core, fs[n])
  }

  lemma PassesBefore(cfg: Config, before: seq<Frame>, f: Frame, n: nat)
    requires |cfg.code| == 257 && n < |before|
    ensures Passes(cfg, before + [f], n) <==> Passes(cfg, before, n)
  {
    assert (before + [f])[..n] == before[..n];
  }

  lemma LastPasses(cfg: Config, before: seq<Frame>, f: Frame)
    requires |cfg.code| == 257 && After(cfg, FRESH, before).Next?
    ensures After(cfg, FRESH, before + [f]).Next? <==> Passes(cfg, before + [f], |before|)
  {
    assert (before + [f])[..|before|] == before;
    RunAgrees(cfg, before);
    StopsExact(cfg, After(cfg, FRESH, before).core, f);
  }

  lemma StoppedBefore(cfg: Config, before: seq<Frame>, f: Frame)
    requires |cfg.code| == 257 && After(cfg, FRESH, before).Stop?
    ensures After(cfg, FRESH, before + [f]).Stop?
  {
    assert (before + [f])[..|before|] == before;
  }

  /** A run goes on if and only if none of its frames is bad where it comes. */
  lemma {:induction false} RunGoesOn(cfg: Config, fs: seq<Frame>)
    requires |cfg.code| == 257
    ensures After(cfg, FRESH, fs).Next? <==> forall n :: 0 <= n < |fs| ==> Passes(cfg, fs, n)
    decreases |fs|
  {
    if fs != [] {
      var before, f := fs[..|fs| - 1], fs[|fs| - 1];
      assert before + [f] == fs;
      RunGoesOn(cfg, before);
      forall n | 0 <= n < |before| ensures Passes(cfg, fs, n) <==> Passes(cfg, before, n) {
        PassesBefore(cfg, before, f, n);
      }
      if After(cfg, FRESH, before).Next? {
        LastPasses(cfg, before, f);
      } else {
        StoppedBefore(cfg, before, f);
      }
    }
  }
}
