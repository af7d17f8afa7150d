/** Whole runs of a connection: every sequence of frames, and of octets, from the start. */
module Runs {
  import opened Wrappers
  import opened Bits
  import opened Http2
  import opened Frames
  import opened Ledger
  import opened HpackDecoder

  /** A connection after frames none of which stopped it, or what stopped it. */
  function After(cfg: Config, core: Core, fs: seq<Frame>): Outcome
    requires |cfg.code| == 257
    decreases |fs|
  {
    if fs == [] then Next(core)
    else
      match After(cfg, core, fs[..|fs| - 1])
      case Next(core') => FrameStep(cfg, core', fs[|fs| - 1])
      case Stop(why) => Stop(why)
  }

  ghost function RecordAll(max: nat, fs: seq<Frame>): Ledger
    decreases |fs|
  {
    if fs == [] then BLANK else Record(max, RecordAll(max, fs[..|fs| - 1]), fs[|fs| - 1])
  }

  // ---------------------------------------------------------------- octets and frames

  lemma {:induction false} AfterFirst(cfg: Config, core: Core, f: Frame, fs: seq<Frame>)
    requires |cfg.code| == 257
    ensures After(cfg, core, [f] + fs) == match FrameStep(cfg, core, f)
                                          case Next(core') => After(cfg, core', fs)
                                          case Stop(why) => Stop(why)
    decreases |fs|
  {
    var all := [f] + fs;
    if fs == [] {
      assert all[..0] == [] && all[0] == f;
      assert After(cfg, core, all[..0]) == Next(core);
    } else {
      var front := fs[..|fs| - 1];
      assert all[..|all| - 1] == [f] + front && all[|all| - 1] == fs[|fs| - 1];
      AfterFirst(cfg, core, f, front);
      AfterLast(cfg, core, all, [f] + front);
    }
  }

  lemma AfterLast(cfg: Config, core: Core, all: seq<Frame>, front: seq<Frame>)
    requires |cfg.code| == 257 && all != [] && front == all[..|all| - 1]
    ensures After(cfg, core, all) == match After(cfg, core, front)
                                     case Next(core') => FrameStep(cfg, core', all[|all| - 1])
                                     case Stop(why) => Stop(why)
  {}

  /** The read loop does what the frames of its octets do, one after another. */
  lemma {:induction false} OctetsAreFrames(cfg: Config, core: Core, buf: seq<byte>)
    requires |cfg.code| == 257
    ensures var (fs, rest) := ParseFrames(buf);
            match RunBytes(cfg, core, buf)
            case Running(core', left) => After(cfg, core, fs) == Next(core') && left == rest
            case Stopped(_, why) => After(cfg, core, fs) == Stop(why)
    decreases |buf|
  {
    match ParseFrame(buf)
    case None =>
    case Some(f) =>
      var fs := ParseFrames(buf[FrameSize(f)..]).0;
      AfterFirst(cfg, core, f, fs);
      match FrameStep(cfg, core, f)
      case Next(core') => OctetsAreFrames(cfg, core', buf[FrameSize(f)..]);
      case Stop(_) =>
  }

  // ---------------------------------------------------------------- every reachable state

  lemma BlankAgrees(cfg: Config)
    requires |cfg.code| == 257
    ensures Agrees(cfg, FRESH, BLANK)
  {
    assert Ids([]) == {};
    assert OpenIds(BLANK) == {};
  }

  /** The server agrees with the peer's ledger after every run. */
  lemma {:induction false} RunAgrees(cfg: Config, fs: seq<Frame>)
    requires |cfg.code| == 257
    requires After(cfg, FRESH, fs).Next?
    ensures Agrees(cfg, After(cfg, FRESH, fs).core, RecordAll(cfg.maxStreams, fs))
    decreases |fs|
  {
    if fs == [] {
      BlankAgrees(cfg);
    } else {
      var before := fs[..|fs| - 1];
      RunAgrees(cfg, before);
      StepAgrees(cfg, After(cfg, FRESH, before).core, RecordAll(cfg.maxStreams, before), fs[|fs| - 1]);
    }
  }

  /** The table and the pending block of every reachable state. */
  lemma ReachableState(cfg: Config, fs: seq<Frame>)
    requires |cfg.code| == 257
    requires After(cfg, FRESH, fs).Next?
    ensures var core := After(cfg, FRESH, fs).core;
            && |core.streams| <= cfg.maxStreams
            && (forall i, j :: 0 <= i < j < |core.streams| ==> core.streams[i].id < core.streams[j].id)
            && (forall i :: 0 <= i < |core.streams| ==> core.streams[i].id % 2 == 1 && core.streams[i].id <= core.last)
            && (core.cont.Some? ==>
                  && core.cont.value.id == core.last
                  && |core.streams| < cfg.maxStreams
                  && forall i :: 0 <= i < |core.streams| ==> core.streams[i].id < core.last)
  {
    var core, l := After(cfg, FRESH, fs).core, RecordAll(cfg.maxStreams, fs);
    RunAgrees(cfg, fs);
    forall i | 0 <= i < |core.streams| ensures At(l, core.streams[i].id).Some? && l.stages[core.streams[i].id].Open? {
      assert StreamFits(Routes(cfg, l), At(l, core.streams[i].id), core.streams[i]);
    }
  }

  // ---------------------------------------------------------------- the life of a stream

  /** The streams named in HEADERS frames. */
  ghost function Named(fs: seq<Frame>): set<nat> {
    set i | 0 <= i < |fs| && fs[i].kind == Headers :: fs[i].id
  }

  /** How the stage of a stream may go on. What is over stays as it is. */
  ghost predicate Later(a: Option<Stage>, b: Option<Stage>) {
    match a
    case None => true
    case Some(Awaiting(end, block)) =>
      && b.Some?
      && (b.value.Awaiting? ==> b.value.end == end && block <= b.value.block)
      && b.value != Refused
    case Some(Open(k, body)) =>
      && b.Some?
      && (match b.value
          case Open(k', body') => k' == k && body <= body'
          case Dispatched(k', Some(body')) => k' == k && body <= body'
          case Cancelled => true
          case _ => false)
    case Some(_) => b == a
  }

  lemma PutIsLater(l: Ledger, at: nat, stage: Stage, id: nat)
    requires Later(At(l, at), Some(stage))
    ensures Later(At(l, id), At(Put(l, at, stage), id))
    ensures Put(l, at, stage).stages.Keys == l.stages.Keys + {at}
  {}

  lemma ReceiveIsLater(l: Ledger, at: nat, content: seq<byte>, end: bool, id: nat)
    ensures Later(At(l, id), At(Receive(l, at, content, end), id))
    ensures Receive(l, at, content, end).stages.Keys == l.stages.Keys
  {
    match At(l, at)
    case Some(Open(k, body)) =>
      PutIsLater(l, at, if end then Dispatched(k, Some(body + content)) else Open(k, body + content), id);
    case _ =>
  }

  lemma BeginIsLater(l: Ledger, at: nat, end: bool, block: seq<byte>, id: nat)
    requires At(l, at).None? || l.stages[at].Awaiting?
    ensures Later(At(l, id), At(Begin(l, at, end, block), id))
    ensures Begin(l, at, end, block).stages.Keys == l.stages.Keys + {at}
  {
    var l1 := l.(blocks := l.blocks + [block]);
    PutIsLater(l1, at, if end then Dispatched(|l.blocks|, None) else Open(|l.blocks|, []), id);
  }

  /** HEADERS the server accepts name a new stream. */
  lemma AskIsLater(cfg: Config, core: Core, l: Ledger, f: Frame, id: nat)
    requires |cfg.code| == 257 && Known(l, core.last) && f.kind == Headers && OnHeaders(cfg, core, f).Next?
    requires |OpenIds(l)| == |core.streams|
    ensures Later(At(l, id), At(Ask(cfg.maxStreams, l, f), id))
    ensures Ask(cfg.maxStreams, l, f).stages.Keys == l.stages.Keys + {f.id}
    ensures f.id !in l.stages
  {
    if |core.streams| >= cfg.maxStreams {
      PutIsLater(Answer(l, RstBytes(f.id)), f.id, Refused, id);
    } else {
      BlockIsStripped(f);
      var block := BlockIn(f).value;
      if IsEndHeaders(f.flags) {
        BeginIsLater(l, f.id, IsEndStream(f.flags), block, id);
      } else {
        PutIsLater(l, f.id, Awaiting(IsEndStream(f.flags), block), id);
      }
    }
  }

  lemma WaitIsLater(l: Ledger, f: Frame, max: nat, id: nat)
    requires f.kind == Continuation
    ensures Later(At(l, id), At(Record(max, l, f), id))
    ensures Record(max, l, f).stages.Keys == l.stages.Keys
  {
    match At(l, f.id)
    case Some(Awaiting(end, block)) =>
      if IsEndHeaders(f.flags) {
        BeginIsLater(l, f.id, end, block + f.payload, id);
      } else {
        PutIsLater(l, f.id, Awaiting(end, block + f.payload), id);
      }
    case _ =>
  }

  /** One frame: stages advance, and a stream gets its first stage when HEADERS name it. */
  lemma StepIsLater(cfg: Config, core: Core, l: Ledger, f: Frame, id: nat)
    requires |cfg.code| == 257 && Agrees(cfg, core, l) && FrameStep(cfg, core, f).Next?
    ensures Later(At(l, id), At(Record(cfg.maxStreams, l, f), id))
    ensures Record(cfg.maxStreams, l, f).stages.Keys == l.stages.Keys + (if f.kind == Headers then {f.id} else {})
    ensures f.kind == Headers ==> f.id !in l.stages
  {
    if f.kind == Headers {
      IdsCount(core.streams);
      AskIsLater(cfg, core, l, f, id);
    } else {
      OtherIsLater(l, f, cfg.maxStreams, id);
    }
  }

  lemma OtherIsLater(l: Ledger, f: Frame, max: nat, id: nat)
    requires f.kind != Headers
    ensures Later(At(l, id), At(Record(max, l, f), id))
    ensures Record(max, l, f).stages.Keys == l.stages.Keys
  {
    match f.kind
    case Data =>
      match ContentOf(f) {
        case Some(content) => ReceiveIsLater(l, f.id, content, IsEndStream(f.flags), id);
        case _ =>
      }
    case Continuation => WaitIsLater(l, f, max, id);
    case Reset =>
      if f.id in OpenIds(l) {
        PutIsLater(l, f.id, Cancelled, id);
      }
    case _ =>
  }

  /** What an accepted frame says about itself. */
  ghost predicate Accepted(l: Ledger, f: Frame) {
    && (f.kind == Headers ==> At(l, f.id).None?)
    && (f.kind == Continuation ==> At(l, f.id).Some? && l.stages[f.id].Awaiting?)
    && (f.kind == FrameKind.Data ==> ContentOf(f).Some?)
    && (f.kind == Ping && !IsAck(f.flags) ==> |f.payload| == 8)
  }

  /** A frame was accepted, and stages advance with it. */
  ghost predicate Advances(l: Ledger, f: Frame, l': Ledger, id: nat) {
    && Accepted(l, f)
    && Later(At(l, id), At(l', id))
    && l'.stages.Keys == l.stages.Keys + (if f.kind == Headers then {f.id} else {})
  }

  lemma StepAdvances(cfg: Config, core: Core, l: Ledger, f: Frame, id: nat)
    requires |cfg.code| == 257 && Agrees(cfg, core, l) && FrameStep(cfg, core, f).Next?
    ensures Advances(l, f, Record(cfg.maxStreams, l, f), id)
  {
    ContentIsStripped(f);
    StepIsLater(cfg, core, l, f, id);
  }

  lemma Unfold(cfg: Config, fs: seq<Frame>)
    requires |cfg.code| == 257 && fs != []
    requires After(cfg, FRESH, fs).Next?
    ensures var before, f := fs[..|fs| - 1], fs[|fs| - 1];
            && After(cfg, FRESH, before).Next?
            && FrameStep(cfg, After(cfg, FRESH, before).core, f).Next?
            && before + [f] == fs
            && RecordAll(cfg.maxStreams, fs) == Record(cfg.maxStreams, RecordAll(cfg.maxStreams, before), f)
  {}

  /** The last frame of a run. */
  lemma LastFrame(cfg: Config, fs: seq<Frame>, id: nat)
    requires |cfg.code| == 257 && fs != []
    requires After(cfg, FRESH, fs).Next?
    ensures var before, f := fs[..|fs| - 1], fs[|fs| - 1];
            var l, l' := RecordAll(cfg.maxStreams, before), RecordAll(cfg.maxStreams, fs);
            && After(cfg, FRESH, before).Next?
            && before + [f] == fs
            && l' == Record(cfg.maxStreams, l, f)
            && Advances(l, f, l', id)
  {
    var before, f := fs[..|fs| - 1], fs[|fs| - 1];
    Unfold(cfg, fs);
    RunAgrees(cfg, before);
    StepAdvances(cfg, After(cfg, FRESH, before).core, RecordAll(cfg.maxStreams, before), f, id);
  }

  /** Stages only advance, over every run and every later part of it. */
  lemma {:induction false} StagesAdvance(cfg: Config, fs: seq<Frame>, n: nat, id: nat)
    requires |cfg.code| == 257 && n <= |fs|
    requires After(cfg, FRESH, fs).Next?
    ensures Later(At(RecordAll(cfg.maxStreams, fs[..n]), id), At(RecordAll(cfg.maxStreams, fs), id))
    decreases |fs|
  {
    if n == |fs| {
      assert fs[..n] == fs;
    } else {
      var before := fs[..|fs| - 1];
      assert before[..n] == fs[..n];
      LastFrame(cfg, fs, id);
      StagesAdvance(cfg, before, n, id);
    }
  }

  lemma NamedGrows(fs: seq<Frame>, f: Frame)
    ensures Named(fs + [f]) == Named(fs) + (if f.kind == Headers then {f.id} else {})
  {
    var all := fs + [f];
    assert all[|fs|] == f;
    forall id | id in Named(fs) ensures id in Named(all) {
      var i :| 0 <= i < |fs| && fs[i].kind == Headers && fs[i].id == id;
      assert all[i] == fs[i];
    }
    if f.kind == Headers {
      assert all[|fs|].id in Named(all);
    }
  }

  /** None is lost: the ledger has a stage for exactly the streams named in HEADERS. */
  lemma {:induction false} NoneIsLost(cfg: Config, fs: seq<Frame>)
    requires |cfg.code| == 257
    requires After(cfg, FRESH, fs).Next?
    ensures RecordAll(cfg.maxStreams, fs).stages.Keys == Named(fs)
    decreases |fs|
  {
    if fs != [] {
      var before, f := fs[..|fs| - 1], fs[|fs| - 1];
      LastFrame(cfg, fs, 0);
      NoneIsLost(cfg, before);
      NamedGrows(before, f);
    }
  }

  // ---------------------------------------------------------------- control replies

  /** An octet string is an acknowledgement, or refuses a stream that the ledger has as refused. */
  ghost predicate IsControlReply(w: seq<byte>, l: Ledger) {
    || w == SettingsAckBytes()
    || (exists payload :: |payload| == 8 && w == PingAckBytes(payload))
    || (exists id :: At(l, id) == Some(Refused) && w == RstBytes(id))
  }

  /** Every stream refused gets its RST_STREAM, and no other stream does. */
  ghost predicate RepliesFit(l: Ledger) {
    && (forall id :: At(l, id) == Some(Refused) ==> RstBytes(id) in l.replies)
    && (forall i :: 0 <= i < |l.replies| ==> IsControlReply(l.replies[i], l))
  }

  lemma ReplyStays(l: Ledger, l': Ledger, w: seq<byte>)
    requires IsControlReply(w, l)
    requires forall id :: At(l, id) == Some(Refused) ==> At(l', id) == Some(Refused)
    ensures IsControlReply(w, l')
  {
    if w != SettingsAckBytes() && !(exists payload :: |payload| == 8 && w == PingAckBytes(payload)) {
      var id :| At(l, id) == Some(Refused) && w == RstBytes(id);
      assert At(l', id) == Some(Refused);
    }
  }

  /** No reply, and no new refusal. */
  lemma RepliesKeep(l: Ledger, l': Ledger)
    requires RepliesFit(l) && l'.replies == l.replies
    requires forall id :: At(l, id) == Some(Refused) <==> At(l', id) == Some(Refused)
    ensures RepliesFit(l')
  {
    forall i | 0 <= i < |l'.replies| ensures IsControlReply(l'.replies[i], l') {
      ReplyStays(l, l', l.replies[i]);
    }
  }

  lemma RepliesGrow(l: Ledger, l': Ledger, w: seq<byte>)
    requires RepliesFit(l) && l'.replies == l.replies + [w] && IsControlReply(w, l')
    requires forall id :: At(l, id) == Some(Refused) ==> At(l', id) == Some(Refused)
    requires forall id :: At(l', id) == Some(Refused) ==> At(l, id) == Some(Refused) || w == RstBytes(id)
    ensures RepliesFit(l')
  {
    forall i | 0 <= i < |l'.replies| ensures IsControlReply(l'.replies[i], l') {
      if i < |l.replies| {
        ReplyStays(l, l', l.replies[i]);
      }
    }
    assert forall v :: v in l.replies ==> v in l'.replies;
    assert w in l'.replies by {
      assert l'.replies[|l.replies|] == w;
    }
  }

  /** Only HEADERS refuse a stream, and what is refused stays so. */
  lemma RefusedStays(max: nat, l: Ledger, f: Frame, id: nat)
    requires Accepted(l, f) && f.kind != Headers
    ensures At(Record(max, l, f), id) == Some(Refused) <==> At(l, id) == Some(Refused)
  {}

  lemma RefuseStep(max: nat, l: Ledger, f: Frame)
    requires RepliesFit(l) && At(l, f.id).None?
    ensures RepliesFit(Ask(max, l, f))
  {
    var l' := Ask(max, l, f);
    if |OpenIds(l)| >= max {
      assert At(l', f.id) == Some(Refused);
      RepliesGrow(l, l', RstBytes(f.id));
    } else {
      RepliesKeep(l, l');
    }
  }

  lemma RepliesStep(max: nat, l: Ledger, f: Frame)
    requires RepliesFit(l) && Accepted(l, f)
    ensures RepliesFit(Record(max, l, f))
  {
    var l' := Record(max, l, f);
    if f.kind == Headers {
      RefuseStep(max, l, f);
      return;
    }
    forall id {
      RefusedStays(max, l, f, id);
    }
    if f.kind == Settings && !IsAck(f.flags) {
      RepliesGrow(l, l', SettingsAckBytes());
    } else if f.kind == Ping && !IsAck(f.flags) {
      assert IsControlReply(PingAckBytes(f.payload), l');
      RepliesGrow(l, l', PingAckBytes(f.payload));
    } else {
      assert l'.replies == l.replies;
      RepliesKeep(l, l');
    }
  }

  /** Control replies of a run: RST_STREAM for exactly the streams refused, and acknowledgements. */
  lemma {:induction false} RefusalsAreSent(cfg: Config, fs: seq<Frame>)
    requires |cfg.code| == 257
    requires After(cfg, FRESH, fs).Next?
    ensures After(cfg, FRESH, fs).core.writes == RecordAll(cfg.maxStreams, fs).replies
    ensures RepliesFit(RecordAll(cfg.maxStreams, fs))
    decreases |fs|
  {
    RunAgrees(cfg, fs);
    if fs != [] {
      var before := fs[..|fs| - 1];
      LastFrame(cfg, fs, 0);
      RefusalsAreSent(cfg, before);
      RepliesStep(cfg.maxStreams, RecordAll(cfg.maxStreams, before), fs[|fs| - 1]);
    }
  }

  // ---------------------------------------------------------------- messages

  /** The octets a stream's DATA frames carry, without padding, after its last header frame. */
  ghost function Contents(fs: seq<Frame>, id: nat): seq<byte>
    decreases |fs|
  {
    if fs == [] then []
    else
      var before, f := Contents(fs[..|fs| - 1], id), fs[|fs| - 1];
      if f.id != id then before
      else
        match f.kind
        case Headers => []
        case Continuation => []
        case Data => before + (match ContentOf(f) case Some(content) => content case None => [])
        case _ => before
  }

  lemma ContentsOne(f: Frame, id: nat)
    ensures Contents([f], id) ==
            if f.id == id && f.kind == FrameKind.Data && ContentOf(f).Some? then ContentOf(f).value else []
  {
    assert [f][..0] == [];
  }

  /** Later frames add to the contents, unless they are of a header block. */
  lemma {:induction false} ContentsAppend(a: seq<Frame>, b: seq<Frame>, id: nat)
    requires forall i :: 0 <= i < |b| ==> !IsHead(b[i], id)
    ensures Contents(a + b, id) == Contents(a, id) + Contents(b, id)
    decreases |b|
  {
    if b == [] {
      assert a + b == a;
    } else {
      var b', f := b[..|b| - 1], b[|b| - 1];
      assert (a + b)[..|a + b| - 1] == a + b';
      ContentsAppend(a, b', id);
      if f.id == id && f.kind == FrameKind.Data && ContentOf(f).Some? {
        AppendAssoc(Contents(a, id), Contents(b', id), ContentOf(f).value);
      }
    }
  }

  predicate IsEnd(f: Frame, id: nat) {
    f.kind == FrameKind.Data && f.id == id && IsEndStream(f.flags)
  }

  predicate IsHead(f: Frame, id: nat) {
    (f.kind == Headers || f.kind == Continuation) && f.id == id
  }

  /** No DATA with END_STREAM on a stream since its last header frame. */
  ghost predicate NotEnded(fs: seq<Frame>, id: nat) {
    forall m :: 0 <= m < |fs| && IsEnd(fs[m], id) ==> exists h :: m < h < |fs| && IsHead(fs[h], id)
  }

  /**
   Frame n of a run ends its stream, whose octets up to it are `body`: it is the first END_STREAM since
   the last header frame of the stream, and no header frame follows.
  */
  ghost predicate EndsAt(fs: seq<Frame>, id: nat, body: seq<byte>, n: nat) {
    && n < |fs| && IsEnd(fs[n], id) && NotEnded(fs[..n], id)
    && (forall h :: n < h < |fs| ==> !IsHead(fs[h], id))
    && body == Contents(fs[..n + 1], id)
  }

  lemma HeadBetween(fs: seq<Frame>, id: nat, n: nat, n': nat)
    requires n < n' <= |fs| && IsEnd(fs[n], id) && NotEnded(fs[..n'], id)
    ensures exists h :: n < h < n' && IsHead(fs[h], id)
  {
    assert fs[..n'][n] == fs[n];
    var h :| n < h < n' && IsHead(fs[..n'][h], id);
    assert IsHead(fs[h], id);
  }

  /** There is one such frame. */
  lemma EndIsUnique(fs: seq<Frame>, id: nat, body: seq<byte>, n: nat, body': seq<byte>, n': nat)
    requires EndsAt(fs, id, body, n) && EndsAt(fs, id, body', n')
    ensures n == n' && body == body'
  {
    if n < n' {
      HeadBetween(fs, id, n, n');
    } else if n' < n {
      HeadBetween(fs, id, n', n);
    }
  }

  ghost predicate BodyAgrees(fs: seq<Frame>, id: nat, stage: Option<Stage>) {
    match stage
    case Some(Open(_, body)) => body == Contents(fs, id) && NotEnded(fs, id)
    case Some(Dispatched(_, Some(body))) => exists n :: EndsAt(fs, id, body, n)
    case _ => true
  }

  lemma EndStays(fs: seq<Frame>, f: Frame, id: nat, body: seq<byte>, n: nat)
    requires EndsAt(fs, id, body, n) && !IsHead(f, id)
    ensures EndsAt(fs + [f], id, body, n)
  {
    assert (fs + [f])[..n + 1] == fs[..n + 1] && (fs + [f])[..n] == fs[..n];
  }

  lemma StaysOpen(fs: seq<Frame>, f: Frame, id: nat)
    requires IsHead(f, id) || (NotEnded(fs, id) && !IsEnd(f, id))
    ensures NotEnded(fs + [f], id)
  {
    var all := fs + [f];
    forall m | 0 <= m < |all| && IsEnd(all[m], id) ensures exists h :: m < h < |all| && IsHead(all[h], id) {
      if IsHead(f, id) {
        assert IsHead(all[|fs|], id);
      } else {
        assert IsEnd(fs[m], id);
        var h :| m < h < |fs| && IsHead(fs[h], id);
        assert all[h] == fs[h];
      }
    }
  }

  lemma BodyStep(fs: seq<Frame>, f: Frame, max: nat, l: Ledger, id: nat)
    requires BodyAgrees(fs, id, At(l, id))
    requires Later(At(l, id), At(Record(max, l, f), id))
    requires Accepted(l, f)
    ensures BodyAgrees(fs + [f], id, At(Record(max, l, f), id))
  {
    var all, l' := fs + [f], Record(max, l, f);
    assert all[..|fs|] == fs && all[|fs|] == f;
    match At(l, id)
    case Some(Dispatched(_, Some(body))) =>
      var n :| EndsAt(fs, id, body, n);
      EndStays(fs, f, id, body, n);
    case Some(Open(k, body)) =>
      if IsEnd(f, id) {
        assert all[..|fs| + 1] == all;
        assert EndsAt(all, id, Contents(all, id), |fs|);
      } else {
        StaysOpen(fs, f, id);
      }
    case _ =>
      if IsHead(f, id) {
        StaysOpen(fs, f, id);
      }
  }

  lemma {:induction false} BodyIsContents(cfg: Config, fs: seq<Frame>, id: nat)
    requires |cfg.code| == 257
    requires After(cfg, FRESH, fs).Next?
    ensures BodyAgrees(fs, id, At(RecordAll(cfg.maxStreams, fs), id))
    decreases |fs|
  {
    if fs != [] {
      var before, f := fs[..|fs| - 1], fs[|fs| - 1];
      LastFrame(cfg, fs, id);
      BodyIsContents(cfg, before, id);
      BodyStep(before, f, cfg.maxStreams, RecordAll(cfg.maxStreams, before), id);
    }
  }

  /**
   A message is what its request carried: nothing, or its DATA in order of arrival, less the prefix of five
   octets, and inflated by the encoding of the request if the first octet says so.
  */
  ghost predicate MessageOf(cfg: Config, fs: seq<Frame>, c: Call, sent: Option<seq<byte>>, encoding: GrpcEncoding) {
    match sent
    case None => c.msg == []
    case Some(body) =>
      && |body| >= 5 && (body[0] == 0 ==> c.msg == body[5..])
      && (body[0] != 0 ==> encoding != Identity && cfg.inflate(encoding, body[5..]) == Some(c.msg))
      && exists n :: EndsAt(fs, c.id, body, n)
  }

  /**
   Whatever frames of other streams, cuts and padding come between: the message of a call is the
   concatenation of its stream's DATA contents up to END_STREAM, less the gRPC prefix.
  */
  lemma MessageIsReassembled(cfg: Config, fs: seq<Frame>, i: nat)
    requires |cfg.code| == 257
    requires After(cfg, FRESH, fs).Next? && i < |After(cfg, FRESH, fs).core.calls|
    ensures var c, l := After(cfg, FRESH, fs).core.calls[i], RecordAll(cfg.maxStreams, fs);
            && c.id in l.stages && l.stages[c.id].Dispatched?
            && l.stages[c.id].k < |Routes(cfg, l)|
            && MessageOf(cfg, fs, c, l.stages[c.id].sent, Routes(cfg, l)[l.stages[c.id].k].1)
  {
    var core, l := After(cfg, FRESH, fs).core, RecordAll(cfg.maxStreams, fs);
    RunAgrees(cfg, fs);
    var c := core.calls[i];
    assert CallFits(cfg, Routes(cfg, l), At(l, l.done[i]), c);
    BodyIsContents(cfg, fs, c.id);
  }

  // ---------------------------------------------------------------- lifecycle

  ghost function CallIds(calls: seq<Call>): set<nat> {
    set i | 0 <= i < |calls| :: calls[i].id
  }

  ghost function PendingIds(cont: Option<Pending>): set<nat> {
    if cont.Some? then {cont.value.id} else {}
  }

  ghost function WithStage(l: Ledger, stage: Stage): set<nat> {
    set id | id in l.stages && l.stages[id] == stage
  }

  ghost function AwaitingIds(l: Ledger): set<nat> {
    set id | id in l.stages && l.stages[id].Awaiting?
  }

  ghost function DispatchedIds(l: Ledger): set<nat> {
    set id | id in l.stages && l.stages[id].Dispatched?
  }

  lemma StagesSplit(l: Ledger)
    ensures l.stages.Keys ==
            OpenIds(l) + AwaitingIds(l) + DispatchedIds(l) + WithStage(l, Cancelled) + WithStage(l, Refused)
    ensures OpenIds(l) !! AwaitingIds(l) !! DispatchedIds(l) !! WithStage(l, Cancelled) !! WithStage(l, Refused)
  {}

  lemma PendingIsAwaiting(cont: Option<Pending>, last: nat, l: Ledger)
    requires PendingAgrees(cont, last, l)
    ensures PendingIds(cont) == AwaitingIds(l)
  {}

  lemma CallIdsAreDispatched(cfg: Config, core: Core, l: Ledger)
    requires |cfg.code| == 257 && Agrees(cfg, core, l)
    ensures CallIds(core.calls) == DispatchedIds(l)
    ensures forall i, j :: 0 <= i < j < |core.calls| ==> core.calls[i].id != core.calls[j].id
  {
    forall id | id in DispatchedIds(l) ensures id in CallIds(core.calls) {
      var i :| 0 <= i < |l.done| && l.done[i] == id;
      assert core.calls[i].id == id;
    }
    forall i | 0 <= i < |core.calls| ensures core.calls[i].id in l.stages && l.stages[core.calls[i].id].Dispatched? {
      assert CallFits(cfg, Routes(cfg, l), At(l, l.done[i]), core.calls[i]);
    }
  }

  /**
   The streams named in HEADERS split, none lost and none twice, into those open in the table, the
   one that waits for CONTINUATION, those dispatched once each, those reset and those refused.
  */
  lemma StreamsSplit(cfg: Config, fs: seq<Frame>)
    requires |cfg.code| == 257
    requires After(cfg, FRESH, fs).Next?
    ensures var core, l := After(cfg, FRESH, fs).core, RecordAll(cfg.maxStreams, fs);
            var (open, waits, calls) := (Ids(core.streams), PendingIds(core.cont), CallIds(core.calls));
            && Named(fs) == open + waits + calls + WithStage(l, Cancelled) + WithStage(l, Refused)
            && open !! waits !! calls !! WithStage(l, Cancelled) !! WithStage(l, Refused)
            && forall i, j :: 0 <= i < j < |core.calls| ==> core.calls[i].id != core.calls[j].id
  {
    var core, l := After(cfg, FRESH, fs).core, RecordAll(cfg.maxStreams, fs);
    RunAgrees(cfg, fs);
    NoneIsLost(cfg, fs);
    CallIdsAreDispatched(cfg, core, l);
    PendingIsAwaiting(core.cont, core.last, l);
    StagesSplit(l);
  }

  // ---------------------------------------------------------------- credit

  /** The payload lengths of the DATA frames, with their streams. */
  function DataLens(fs: seq<Frame>): seq<(nat, nat)>
    decreases |fs|
  {
    if fs == [] then []
    else
      var before, f := DataLens(fs[..|fs| - 1]), fs[|fs| - 1];
      if f.kind == FrameKind.Data then before + [(f.id, |f.payload|)] else before
  }

  /** Every DATA frame is charged once, padding and unknown streams included. */
  lemma {:induction false} DataIsCharged(cfg: Config, fs: seq<Frame>)
    requires |cfg.code| == 257
    requires After(cfg, FRESH, fs).Next?
    ensures After(cfg, FRESH, fs).core.credit == DataLens(fs)
    decreases |fs|
  {
    if fs != [] {
      var before := fs[..|fs| - 1];
      DataIsCharged(cfg, before);
      StepCharges(cfg, After(cfg, FRESH, before).core, fs[|fs| - 1]);
    }
  }

  lemma StepCharges(cfg: Config, core: Core, f: Frame)
    requires |cfg.code| == 257 && FrameStep(cfg, core, f).Next?
    ensures FrameStep(cfg, core, f).core.credit ==
            if f.kind == FrameKind.Data then core.credit + [(f.id, |f.payload|)] else core.credit
  {}
}
