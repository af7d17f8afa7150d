/**
 The control replies of a connection (process_frame, pajamax/src/connection.rs), as frames that a client
 reads: which frames are answered, in which order, and with what.
*/
module Replies {
  import opened Wrappers
  import opened Bits
  import opened Http2
  import opened Frames
  import opened Ledger
  import opened Runs

  /** REFUSED_STREAM, as the four octets of an error code. */
  const REFUSED: seq<byte> := [0, 0, 0, 7]

  /**
   The reply to a frame: RST_STREAM to HEADERS when the table is full, and an acknowledgement to SETTINGS,
   and to PING with its payload, whose bit 0x1 is off.
  */
  function ReplyTo(full: bool, f: Frame): Option<Frame> {
    if f.kind == Headers && full then Some(Frame(Reset, 0, f.id, REFUSED))
    else if f.kind == Settings && f.flags % 2 == 0 then Some(Frame(Settings, 1, 0, []))
    else if f.kind == Ping && f.flags % 2 == 0 then Some(Frame(Ping, 1, 0, f.payload))
    else None
  }

  /** After these frames the connection has as many streams as it may. */
  predicate IsFull(cfg: Config, before: seq<Frame>)
    requires |cfg.code| == 257 && After(cfg, FRESH, before).Next?
  {
    |After(cfg, FRESH, before).core.streams| >= cfg.maxStreams
  }

  function WithReply(replies: seq<Frame>, reply: Option<Frame>): seq<Frame> {
    match reply
    case Some(r) => replies + [r]
    case None => replies
  }

  /** The replies to the frames of a run, in their order. */
  function RepliesTo(cfg: Config, fs: seq<Frame>): seq<Frame>
    requires |cfg.code| == 257 && After(cfg, FRESH, fs).Next?
    decreases |fs|
  {
    if fs == [] then []
    else
      var before, f := fs[..|fs| - 1], fs[|fs| - 1];
      WithReply(RepliesTo(cfg, before), ReplyTo(IsFull(cfg, before), f))
  }

  /** Each string of octets is one frame, and nothing else. */
  ghost predicate AreFrames(writes: seq<seq<byte>>, fs: seq<Frame>) {
    |writes| == |fs| && forall i :: 0 <= i < |fs| ==> ParseFrames(writes[i]) == ([fs[i]], [])
  }

  lemma HeadersWrite(cfg: Config, core: Core, f: Frame)
    requires |cfg.code| == 257 && f.kind == Headers && OnHeaders(cfg, core, f).Next?
    ensures OnHeaders(cfg, core, f).core.writes ==
            if |core.streams| >= cfg.maxStreams then core.writes + [FrameBytes(Frame(Reset, 0, f.id, REFUSED))]
            else core.writes
  {
    assert BeBytes(7) == REFUSED;
  }

  lemma ControlWrites(core: Core, f: Frame)
    requires f.kind != Headers && OnControl(core, f).Next?
    ensures OnControl(core, f).core.writes ==
            match ReplyTo(false, f)
            case Some(reply) => core.writes + [FrameBytes(reply)]
            case None => core.writes
    ensures f.kind == Ping && f.flags % 2 == 0 ==> |f.payload| == 8
  {}

  lemma SilentStep(cfg: Config, core: Core, f: Frame)
    requires |cfg.code| == 257 && FrameStep(cfg, core, f).Next?
    requires f.kind == FrameKind.Data || f.kind == Continuation
    ensures FrameStep(cfg, core, f).core.writes == core.writes
  {}

  lemma StepWrites(cfg: Config, core: Core, f: Frame)
    requires |cfg.code| == 257 && FrameStep(cfg, core, f).Next?
    ensures FrameStep(cfg, core, f).core.writes ==
            match ReplyTo(|core.streams| >= cfg.maxStreams, f)
            case Some(reply) => core.writes + [FrameBytes(reply)]
            case None => core.writes
    ensures f.kind == Ping && f.flags % 2 == 0 ==> |f.payload| == 8
  {
    if f.kind == Headers {
      HeadersWrite(cfg, core, f);
    } else if f.kind == FrameKind.Data || f.kind == Continuation {
      SilentStep(cfg, core, f);
    } else {
      ControlWrites(core, f);
    }
  }

  lemma ReplyIsFrame(writes: seq<seq<byte>>, replies: seq<Frame>, reply: Frame)
    requires AreFrames(writes, replies) && Sound(reply)
    ensures AreFrames(writes + [FrameBytes(reply)], replies + [reply])
  {
    OneReadsBack(reply);
  }

  /**
   The control replies of a run, cut into frames, are the replies to its frames: one for each refused
   HEADERS, SETTINGS and PING to be acknowledged, in order, and no others.
  */
  lemma {:induction false} RepliesExact(cfg: Config, fs: seq<Frame>)
    requires |cfg.code| == 257
    requires After(cfg, FRESH, fs).Next? && forall i :: 0 <= i < |fs| ==> fs[i].id < U31
    ensures AreFrames(After(cfg, FRESH, fs).core.writes, RepliesTo(cfg, fs))
    decreases |fs|
  {
    if fs != [] {
      var before, f := fs[..|fs| - 1], fs[|fs| - 1];
      var core := After(cfg, FRESH, before).core;
      RepliesExact(cfg, before);
      StepWrites(cfg, core, f);
      match ReplyTo(IsFull(cfg, before), f)
      case Some(reply) => ReplyIsFrame(core.writes, RepliesTo(cfg, before), reply);
      case None =>
    }
  }

  // ---------------------------------------------------------------- refusals among them

  function WithRefused(ids: seq<nat>, full: bool, f: Frame): seq<nat> {
    if f.kind == Headers && full then ids + [f.id] else ids
  }

  /** The streams of the HEADERS frames that come when the table is full, in order. */
  function RefusedOf(cfg: Config, fs: seq<Frame>): seq<nat>
    requires |cfg.code| == 257 && After(cfg, FRESH, fs).Next?
    decreases |fs|
  {
    if fs == [] then []
    else
      var before := fs[..|fs| - 1];
      WithRefused(RefusedOf(cfg, before), IsFull(cfg, before), fs[|fs| - 1])
  }

  /** The streams of RST_STREAM frames. */
  function ResetIds(fs: seq<Frame>): seq<nat> {
    if fs == [] then []
    else ResetIds(fs[..|fs| - 1]) + (if fs[|fs| - 1].kind == Reset then [fs[|fs| - 1].id] else [])
  }

  ghost predicate AllRefuse(fs: seq<Frame>) {
    forall i :: 0 <= i < |fs| && fs[i].kind == Reset ==> |fs[i].payload| == 4 && FromBe(fs[i].payload) == 7
  }

  lemma ReplyResets(replies: seq<Frame>, full: bool, f: Frame)
    requires AllRefuse(replies)
    ensures var more := WithReply(replies, ReplyTo(full, f));
            AllRefuse(more) && ResetIds(more) == WithRefused(ResetIds(replies), full, f)
  {
    match ReplyTo(full, f)
    case Some(reply) =>
      assert (replies + [reply])[..|replies|] == replies;
      assert ResetIds(replies) + [] == ResetIds(replies);
    case None =>
  }

  lemma PutRefused(l: Ledger, id: nat, stage: Stage)
    requires At(l, id).None?
    ensures WithStage(Put(l, id, stage), Refused) == WithStage(l, Refused) + (if stage == Refused then {id} else {})
    ensures id !in WithStage(l, Refused)
  {}

  lemma AskRefuses(max: nat, l: Ledger, f: Frame)
    requires At(l, f.id).None?
    ensures WithStage(Ask(max, l, f), Refused) ==
            WithStage(l, Refused) + (if |OpenIds(l)| >= max then {f.id} else {})
    ensures f.id !in WithStage(l, Refused)
  {
    if |OpenIds(l)| >= max {
      PutRefused(Answer(l, RstBytes(f.id)), f.id, Refused);
    } else if BlockIn(f).Some? {
      var end, block := IsEndStream(f.flags), BlockIn(f).value;
      var k := |l.blocks|;
      PutRefused(l.(blocks := l.blocks + [block]), f.id, if end then Dispatched(k, None) else Open(k, []));
      PutRefused(l, f.id, Awaiting(end, block));
    }
  }

  /** A frame refuses a stream if it is HEADERS and the table is full. */
  lemma RefusingStep(max: nat, l: Ledger, f: Frame, full: bool)
    requires Accepted(l, f) && (full <==> |OpenIds(l)| >= max)
    ensures var more := if f.kind == Headers && full then {f.id} else {};
            WithStage(Record(max, l, f), Refused) == WithStage(l, Refused) + more && WithStage(l, Refused) !! more
  {
    if f.kind == Headers {
      AskRefuses(max, l, f);
    } else {
      forall id ensures id in WithStage(Record(max, l, f), Refused) <==> id in WithStage(l, Refused) {
        RefusedStays(max, l, f, id);
      }
    }
  }

  /** The ids are distinct, and they are this set. */
  ghost predicate Lists(ids: seq<nat>, s: set<nat>) {
    (forall i, j :: 0 <= i < j < |ids| ==> ids[i] != ids[j]) && forall id :: id in ids <==> id in s
  }

  lemma ListsOneMore(ids: seq<nat>, s: set<nat>, id: nat)
    requires Lists(ids, s) && id !in s
    ensures Lists(ids + [id], s + {id})
  {}

  /**
   The RST_STREAM frames among the replies are for the streams whose HEADERS came when the table was full,
   in their order, each once, with the code of REFUSED_STREAM; and these are the streams that the peer's
   ledger has as refused.
  */
  lemma {:induction false} RefusalsExact(cfg: Config, fs: seq<Frame>)
    requires |cfg.code| == 257 && After(cfg, FRESH, fs).Next?
    ensures ResetIds(RepliesTo(cfg, fs)) == RefusedOf(cfg, fs) && AllRefuse(RepliesTo(cfg, fs))
    ensures Lists(RefusedOf(cfg, fs), WithStage(RecordAll(cfg.maxStreams, fs), Refused))
    decreases |fs|
  {
    if fs != [] {
      var before, f := fs[..|fs| - 1], fs[|fs| - 1];
      var l, full := RecordAll(cfg.maxStreams, before), IsFull(cfg, before);
      RefusalsExact(cfg, before);
      ReplyResets(RepliesTo(cfg, before), full, f);
      LastFrame(cfg, fs, 0);
      TableIsOpen(cfg, before);
      RefusingStep(cfg.maxStreams, l, f, full);
      if f.kind == Headers && full {
        ListsOneMore(RefusedOf(cfg, before), WithStage(l, Refused), f.id);
      }
    }
  }

  lemma TableIsOpen(cfg: Config, fs: seq<Frame>)
    requires |cfg.code| == 257 && After(cfg, FRESH, fs).Next?
    ensures |After(cfg, FRESH, fs).core.streams| == |OpenIds(RecordAll(cfg.maxStreams, fs))|
  {
    RunAgrees(cfg, fs);
    IdsCount(After(cfg, FRESH, fs).core.streams);
  }
}
