/**
 What becomes of a stream, told by the frames alone (pajamax/src/connection.rs): which frame ends its
 header block, and which of END_STREAM and RST_STREAM comes first after it.
*/
module Fates {
  import opened Wrappers
  import opened Http2
  import opened Frames
  import opened Ledger
  import opened Runs

  /** HEADERS of a stream, with END_STREAM or not, that start the last header block of the stream. */
  ghost predicate Starts(fs: seq<Frame>, id: nat, h: nat, end: bool) {
    && h < |fs| && fs[h].kind == Headers && fs[h].id == id && (fs[h].flags % 2 == 1 <==> end)
    && forall k :: h < k < |fs| && fs[k].id == id ==> fs[k].kind != Headers
  }

  /** The frame with END_HEADERS that completes it: itself or a CONTINUATION. */
  ghost predicate Completes(fs: seq<Frame>, id: nat, h: nat, c: nat) {
    && h <= c < |fs| && fs[c].id == id && fs[c].flags / 4 % 2 == 1
    && (c == h || fs[c].kind == Continuation)
    && forall k :: h <= k < |fs| && fs[k].id == id && (k == h || fs[k].kind == Continuation) && k != c ==>
         k < c && fs[k].flags / 4 % 2 == 0
  }

  /** END_STREAM, or a reset. */
  predicate Closes(f: Frame, id: nat) {
    f.id == id && ((f.kind == FrameKind.Data && f.flags % 2 == 1) || f.kind == Reset)
  }

  /** The first frame behind c that closes the stream. */
  ghost predicate ClosesFirst(fs: seq<Frame>, id: nat, c: nat, m: nat) {
    c < m < |fs| && Closes(fs[m], id) && forall k :: c < k < m ==> !Closes(fs[k], id)
  }

  ghost predicate NoneCloses(fs: seq<Frame>, id: nat, c: nat) {
    forall k :: c < k < |fs| ==> !Closes(fs[k], id)
  }

  /** The block of the stream is not complete. */
  ghost predicate IsAwaited(fs: seq<Frame>, id: nat) {
    exists h: nat, end :: Starts(fs, id, h, end) && NoneCompletes(fs, id, h)
  }

  ghost predicate NoneCompletes(fs: seq<Frame>, id: nat, h: nat) {
    forall k :: h <= k < |fs| && fs[k].id == id && (k == h || fs[k].kind == Continuation) ==>
      fs[k].flags / 4 % 2 == 0
  }

  ghost predicate Opens(fs: seq<Frame>, id: nat, h: nat, c: nat) {
    Starts(fs, id, h, false) && Completes(fs, id, h, c)
  }

  /** Its block is complete, without END_STREAM, and nothing closes it. */
  ghost predicate IsOpen(fs: seq<Frame>, id: nat) {
    exists h: nat, c: nat :: Opens(fs, id, h, c) && NoneCloses(fs, id, c)
  }

  /** Its block is complete and has END_STREAM, or DATA with END_STREAM is the first to close it. */
  ghost predicate IsServed(fs: seq<Frame>, id: nat) {
    || (exists h: nat, c: nat :: Starts(fs, id, h, true) && Completes(fs, id, h, c))
    || (exists h: nat, c: nat, m: nat ::
          Opens(fs, id, h, c) && ClosesFirst(fs, id, c, m) && fs[m].kind == FrameKind.Data)
  }

  /** A reset is the first to close it. */
  ghost predicate IsReset(fs: seq<Frame>, id: nat) {
    exists h: nat, c: nat, m: nat :: Opens(fs, id, h, c) && ClosesFirst(fs, id, c, m) && fs[m].kind == Reset
  }

  // ---------------------------------------------------------------- no stream has two fates

  lemma OneStart(fs: seq<Frame>, id: nat, h: nat, end: bool, h': nat, end': bool)
    requires Starts(fs, id, h, end) && Starts(fs, id, h', end')
    ensures h == h' && end == end'
  {}

  lemma OneCompletion(fs: seq<Frame>, id: nat, h: nat, c: nat, c': nat)
    requires Completes(fs, id, h, c) && Completes(fs, id, h, c')
    ensures c == c'
  {}

  lemma OneCloser(fs: seq<Frame>, id: nat, c: nat, m: nat, m': nat)
    requires ClosesFirst(fs, id, c, m) && ClosesFirst(fs, id, c, m')
    ensures m == m'
  {}

  lemma FatesDiffer(fs: seq<Frame>, id: nat)
    ensures !(IsAwaited(fs, id) && (IsOpen(fs, id) || IsServed(fs, id) || IsReset(fs, id)))
    ensures !(IsOpen(fs, id) && (IsServed(fs, id) || IsReset(fs, id)))
    ensures !(IsServed(fs, id) && IsReset(fs, id))
  {
    forall h: nat, end, h': nat, end' | Starts(fs, id, h, end) && Starts(fs, id, h', end')
      ensures h == h' && end == end'
    {
      OneStart(fs, id, h, end, h', end');
    }
    forall h: nat, c: nat, c': nat | Completes(fs, id, h, c) && Completes(fs, id, h, c') ensures c == c' {
      OneCompletion(fs, id, h, c, c');
    }
    forall c: nat, m: nat, m': nat | ClosesFirst(fs, id, c, m) && ClosesFirst(fs, id, c, m') ensures m == m' {
      OneCloser(fs, id, c, m, m');
    }
  }

  // ---------------------------------------------------------------- the ledger tells the same

  ghost predicate NeverStarts(fs: seq<Frame>, id: nat) {
    forall k :: 0 <= k < |fs| && fs[k].id == id ==> fs[k].kind != Headers
  }

  ghost predicate FateAgrees(fs: seq<Frame>, id: nat, stage: Option<Stage>) {
    match stage
    case None => NeverStarts(fs, id)
    case Some(Awaiting(end, _)) => exists h: nat :: Starts(fs, id, h, end) && NoneCompletes(fs, id, h)
    case Some(Open(_, _)) => IsOpen(fs, id)
    case Some(Dispatched(_, _)) => IsServed(fs, id)
    case Some(Cancelled) => IsReset(fs, id)
    case Some(Refused) => true
  }

  lemma StartsStays(fs: seq<Frame>, f: Frame, id: nat, h: nat, end: bool)
    requires Starts(fs, id, h, end) && !(f.id == id && f.kind == Headers)
    ensures Starts(fs + [f], id, h, end)
  {}

  lemma CompletesStays(fs: seq<Frame>, f: Frame, id: nat, h: nat, c: nat)
    requires Completes(fs, id, h, c) && !(f.id == id && f.kind == Continuation)
    ensures Completes(fs + [f], id, h, c)
  {}

  lemma ClosesFirstStays(fs: seq<Frame>, f: Frame, id: nat, c: nat, m: nat)
    requires ClosesFirst(fs, id, c, m)
    ensures ClosesFirst(fs + [f], id, c, m)
  {}

  /** HEADERS of a stream that had none. */
  lemma HeadersFate(fs: seq<Frame>, f: Frame, id: nat)
    requires f.id == id && f.kind == Headers
    ensures var all, end := fs + [f], f.flags % 2 == 1;
            && Starts(all, id, |fs|, end)
            && (if f.flags / 4 % 2 == 1 then Completes(all, id, |fs|, |fs|) && NoneCloses(all, id, |fs|)
                else NoneCompletes(all, id, |fs|))
  {}

  lemma ContinuationFate(fs: seq<Frame>, f: Frame, id: nat, h: nat, end: bool)
    requires Starts(fs, id, h, end) && NoneCompletes(fs, id, h) && f.id == id && f.kind == Continuation
    ensures var all := fs + [f];
            && Starts(all, id, h, end)
            && (if f.flags / 4 % 2 == 1 then Completes(all, id, h, |fs|) && NoneCloses(all, id, |fs|)
                else NoneCompletes(all, id, h))
  {
    StartsStays(fs, f, id, h, end);
  }

  /** A stream whose fate is told keeps it, unless its header block goes on. */
  lemma FateStays(fs: seq<Frame>, f: Frame, id: nat, stage: Option<Stage>)
    requires FateAgrees(fs, id, stage) && !(f.id == id && (f.kind == Headers || f.kind == Continuation))
    requires stage.Some? && stage.value.Open? ==> !Closes(f, id)
    ensures FateAgrees(fs + [f], id, stage)
  {
    match stage
    case None =>
    case Some(Awaiting(end, _)) =>
      var h: nat :| Starts(fs, id, h, end) && NoneCompletes(fs, id, h);
      StartsStays(fs, f, id, h, end);
      assert NoneCompletes(fs + [f], id, h);
    case Some(Open(_, _)) => OpenStays(fs, f, id);
    case Some(Dispatched(_, _)) => ServedStays(fs, f, id);
    case Some(Cancelled) => ResetStays(fs, f, id);
    case Some(Refused) =>
  }

  lemma OpensStays(fs: seq<Frame>, f: Frame, id: nat, h: nat, c: nat)
    requires Opens(fs, id, h, c) && !(f.id == id && (f.kind == Headers || f.kind == Continuation))
    ensures Opens(fs + [f], id, h, c)
  {
    StartsStays(fs, f, id, h, false);
    CompletesStays(fs, f, id, h, c);
  }

  lemma OpenStays(fs: seq<Frame>, f: Frame, id: nat)
    requires IsOpen(fs, id) && !(f.id == id && (f.kind == Headers || f.kind == Continuation)) && !Closes(f, id)
    ensures IsOpen(fs + [f], id)
  {
    var h: nat, c: nat :| Opens(fs, id, h, c) && NoneCloses(fs, id, c);
    OpensStays(fs, f, id, h, c);
    assert NoneCloses(fs + [f], id, c);
  }

  lemma ServedStays(fs: seq<Frame>, f: Frame, id: nat)
    requires IsServed(fs, id) && !(f.id == id && (f.kind == Headers || f.kind == Continuation))
    ensures IsServed(fs + [f], id)
  {
    if h: nat, c: nat :| Starts(fs, id, h, true) && Completes(fs, id, h, c) {
      StartsStays(fs, f, id, h, true);
      CompletesStays(fs, f, id, h, c);
    } else {
      var h: nat, c: nat, m: nat :|
        Opens(fs, id, h, c) && ClosesFirst(fs, id, c, m) && fs[m].kind == FrameKind.Data;
      OpensStays(fs, f, id, h, c);
      ClosesFirstStays(fs, f, id, c, m);
      assert (fs + [f])[m].kind == FrameKind.Data;
    }
  }

  lemma ResetStays(fs: seq<Frame>, f: Frame, id: nat)
    requires IsReset(fs, id) && !(f.id == id && (f.kind == Headers || f.kind == Continuation))
    ensures IsReset(fs + [f], id)
  {
    var h: nat, c: nat, m: nat :| Opens(fs, id, h, c) && ClosesFirst(fs, id, c, m) && fs[m].kind == Reset;
    OpensStays(fs, f, id, h, c);
    ClosesFirstStays(fs, f, id, c, m);
    assert (fs + [f])[m].kind == Reset;
  }

  /** An open stream is closed by END_STREAM or by a reset. */
  lemma ClosingFate(fs: seq<Frame>, f: Frame, id: nat)
    requires IsOpen(fs, id) && Closes(f, id)
    ensures if f.kind == Reset then IsReset(fs + [f], id) else IsServed(fs + [f], id)
  {
    var h: nat, c: nat :| Opens(fs, id, h, c) && NoneCloses(fs, id, c);
    OpensStays(fs, f, id, h, c);
    assert ClosesFirst(fs + [f], id, c, |fs|);
    assert (fs + [f])[|fs|] == f;
  }

  lemma BlockFate(fs: seq<Frame>, f: Frame, max: nat, l: Ledger, id: nat)
    requires FateAgrees(fs, id, At(l, id)) && Accepted(l, f)
    requires f.id == id && (f.kind == Headers || f.kind == Continuation)
    requires f.kind == Headers ==> |OpenIds(l)| >= max || BlockIn(f).Some?
    ensures FateAgrees(fs + [f], id, At(Record(max, l, f), id))
  {
    var all := fs + [f];
    if f.kind == Headers {
      HeadersFate(fs, f, id);
      assert f.flags / 4 % 2 == 1 && f.flags % 2 == 0 ==> Opens(all, id, |fs|, |fs|);
    } else {
      var end := l.stages[id].end;
      var h: nat :| Starts(fs, id, h, end) && NoneCompletes(fs, id, h);
      ContinuationFate(fs, f, id, h, end);
      assert f.flags / 4 % 2 == 1 && !end ==> Opens(all, id, h, |fs|);
    }
  }

  lemma OtherFate(fs: seq<Frame>, f: Frame, max: nat, l: Ledger, id: nat)
    requires FateAgrees(fs, id, At(l, id)) && Accepted(l, f)
    requires !(f.id == id && (f.kind == Headers || f.kind == Continuation))
    ensures FateAgrees(fs + [f], id, At(Record(max, l, f), id))
  {
    var stage := At(l, id);
    if stage.Some? && stage.value.Open? && Closes(f, id) {
      ClosingFate(fs, f, id);
    } else {
      FateStays(fs, f, id, stage);
    }
  }

  lemma {:induction false} FatesAgree(cfg: Config, fs: seq<Frame>, id: nat)
    requires |cfg.code| == 257 && After(cfg, FRESH, fs).Next?
    ensures FateAgrees(fs, id, At(RecordAll(cfg.maxStreams, fs), id))
    decreases |fs|
  {
    if fs != [] {
      var before, f := fs[..|fs| - 1], fs[|fs| - 1];
      var l := RecordAll(cfg.maxStreams, before);
      LastFrame(cfg, fs, id);
      FatesAgree(cfg, before, id);
      if f.id == id && (f.kind == Headers || f.kind == Continuation) {
        RunAgrees(cfg, before);
        Unfold(cfg, fs);
        HaveBlocks(cfg, After(cfg, FRESH, before).core, l, f);
        BlockFate(before, f, cfg.maxStreams, l, id);
      } else {
        OtherFate(before, f, cfg.maxStreams, l, id);
      }
    }
  }

  lemma HaveBlocks(cfg: Config, core: Core, l: Ledger, f: Frame)
    requires |cfg.code| == 257 && Agrees(cfg, core, l) && FrameStep(cfg, core, f).Next?
    ensures f.kind == Headers ==> |OpenIds(l)| >= cfg.maxStreams || BlockIn(f).Some?
  {
    BlockIsStripped(f);
    IdsCount(core.streams);
  }

  /**
   Of every stream whose HEADERS found room: it is in the table, waits for CONTINUATION, has its handler or
   was reset exactly as its frames tell.
  */
  lemma StreamFates(cfg: Config, fs: seq<Frame>, id: nat)
    requires |cfg.code| == 257 && After(cfg, FRESH, fs).Next?
    requires id in Named(fs) && id !in WithStage(RecordAll(cfg.maxStreams, fs), Refused)
    ensures var core, l := After(cfg, FRESH, fs).core, RecordAll(cfg.maxStreams, fs);
            && (id in Ids(core.streams) <==> IsOpen(fs, id))
            && (id in PendingIds(core.cont) <==> IsAwaited(fs, id))
            && (id in CallIds(core.calls) <==> IsServed(fs, id))
            && (id in WithStage(l, Cancelled) <==> IsReset(fs, id))
  {
    var core, l := After(cfg, FRESH, fs).core, RecordAll(cfg.maxStreams, fs);
    FatesAgree(cfg, fs, id);
    FatesDiffer(fs, id);
    NoneIsLost(cfg, fs);
    RunAgrees(cfg, fs);
    CallIdsAreDispatched(cfg, core, l);
    PendingIsAwaiting(core.cont, core.last, l);
  }
}
