/**
 Header blocks of refused streams. The server does not decode them (pajamax/src/connection.rs), so its
 table may part from the peer's. This is exactly when that matters, and what it does to routes.
*/
module Refusals {
  import opened Wrappers
  import opened Bits
  import opened HpackInt
  import opened HpackReference
  import opened HpackFields
  import opened Http2
  import opened RouteCache
  import opened Frames
  import opened Ledger
  import opened Runs
  import opened HpackDecoder
  import Huffman
  import opened TableDrift
  import RouteLimits

  // ---------------------------------------------------------------- the blocks a peer sent

  datatype SentBlock = SentBlock(id: nat, block: seq<byte>)

  datatype Wire = Wire(done: seq<SentBlock>, pending: Option<SentBlock>)

  function Piece(w: Wire, sent: SentBlock, end: bool): Wire {
    if end then Wire(w.done + [sent], None) else Wire(w.done, Some(sent))
  }

  /** The header blocks of a run from its frames alone, whatever the server made of them. */
  ghost function SentBlocks(fs: seq<Frame>): Wire
    decreases |fs|
  {
    if fs == [] then Wire([], None)
    else
      var w, f := SentBlocks(fs[..|fs| - 1]), fs[|fs| - 1];
      NextBlock(w, f)
  }

  ghost function NextBlock(w: Wire, f: Frame): Wire {
    match f.kind
    case Headers => (
      match BlockIn(f)
      case Some(block) => Piece(w, SentBlock(f.id, block), IsEndHeaders(f.flags))
      case None => w
    )
    case Continuation =>
      if w.pending.Some? && w.pending.value.id == f.id then
        Piece(w, SentBlock(f.id, w.pending.value.block + f.payload), IsEndHeaders(f.flags))
      else w
    case _ => w
  }

  function Payloads(fs: seq<Frame>): seq<seq<byte>> {
    seq(|fs|, i requires 0 <= i < |fs| => fs[i].payload)
  }

  /** CONTINUATION frames of a stream; `end` says whether the last has END_HEADERS, and no other has. */
  ghost predicate Continue(conts: seq<Frame>, id: nat, end: bool) {
    forall i :: 0 <= i < |conts| ==>
      && conts[i].kind == Continuation && conts[i].id == id
      && (conts[i].flags / 4 % 2 == 1 <==> end && i == |conts| - 1)
  }

  lemma {:induction false} BlockGoesOn(before: seq<Frame>, id: nat, block: seq<byte>, conts: seq<Frame>)
    requires SentBlocks(before).pending == Some(SentBlock(id, block)) && Continue(conts, id, false)
    ensures SentBlocks(before + conts) ==
            Wire(SentBlocks(before).done, Some(SentBlock(id, block + Concat(Payloads(conts)))))
    decreases |conts|
  {
    if conts == [] {
      assert before + conts == before && block + [] == block;
    } else {
      var front, last := conts[..|conts| - 1], conts[|conts| - 1];
      assert front + [last] == conts;
      BlockGoesOn(before, id, block, front);
      NextPiece(before, block, front, last);
    }
  }

  lemma NextPiece(before: seq<Frame>, block: seq<byte>, front: seq<Frame>, last: Frame)
    ensures SentBlocks(before + (front + [last])) == NextBlock(SentBlocks(before + front), last)
    ensures block + Concat(Payloads(front + [last])) == (block + Concat(Payloads(front))) + last.payload
    ensures (front + [last])[..|front|] == front
  {
    var all := before + (front + [last]);
    assert all[..|all| - 1] == before + front;
    var pieces := Payloads(front + [last]);
    assert pieces[..|pieces| - 1] == Payloads(front);
    AppendAssoc(block, Concat(Payloads(front)), last.payload);
  }

  /** A header block is what HEADERS has of it and then the payloads of its CONTINUATION frames, in order. */
  lemma BlockIsPieces(before: seq<Frame>, id: nat, block: seq<byte>, conts: seq<Frame>)
    requires SentBlocks(before).pending == Some(SentBlock(id, block)) && conts != [] && Continue(conts, id, true)
    ensures SentBlocks(before + conts) ==
            Wire(SentBlocks(before).done + [SentBlock(id, block + Concat(Payloads(conts)))], None)
  {
    var front, last := conts[..|conts| - 1], conts[|conts| - 1];
    assert front + [last] == conts;
    BlockGoesOn(before, id, block, front);
    NextPiece(before, block, front, last);
  }

  /** HEADERS without END_HEADERS begin one; with it, they are one. */
  lemma HeadersPiece(before: seq<Frame>, f: Frame, block: seq<byte>)
    requires f.kind == Headers && HasBlock(f.flags, f.payload, block)
    ensures SentBlocks(before + [f]) ==
            if f.flags / 4 % 2 == 1 then Wire(SentBlocks(before).done + [SentBlock(f.id, block)], None)
            else Wire(SentBlocks(before).done, Some(SentBlock(f.id, block)))
  {
    assert (before + [f])[..|before|] == before;
    BlockIsStripped(f);
    PriorityExact(f.flags, f.payload, block);
  }

  /** The blocks of the streams that were not refused. */
  function Kept(sent: seq<SentBlock>, refused: set<nat>): seq<SentBlock> {
    if sent == [] then []
    else Kept(sent[..|sent| - 1], refused) + (if sent[|sent| - 1].id in refused then [] else [sent[|sent| - 1]])
  }

  function Octets(sent: seq<SentBlock>): (blocks: seq<seq<byte>>)
    ensures |blocks| == |sent|
  {
    seq(|sent|, i requires 0 <= i < |sent| => sent[i].block)
  }

  ghost function RefusedIds(l: Ledger): set<nat> {
    WithStage(l, Refused)
  }

  /** A stream's header block is the one of its number. */
  ghost predicate IsBlockOf(kept: seq<SentBlock>, id: nat, stage: Stage) {
    match stage
    case Open(k, _) => k < |kept| && kept[k].id == id
    case Dispatched(k, _) => k < |kept| && kept[k].id == id
    case _ => true
  }

  ghost predicate BlocksAgree(w: Wire, l: Ledger) {
    var kept := Kept(w.done, RefusedIds(l));
    && Octets(kept) == l.blocks
    && (forall id :: id in l.stages ==> IsBlockOf(kept, id, l.stages[id]))
    && (forall id :: id in l.stages && l.stages[id].Awaiting? ==> w.pending == Some(SentBlock(id, l.stages[id].block)))
    && (forall i :: 0 <= i < |w.done| ==> w.done[i].id in l.stages)
  }

  lemma {:induction false} KeptSame(sent: seq<SentBlock>, refused: set<nat>, refused': set<nat>)
    requires forall i :: 0 <= i < |sent| ==> (sent[i].id in refused <==> sent[i].id in refused')
    ensures Kept(sent, refused) == Kept(sent, refused')
    decreases |sent|
  {
    if sent != [] {
      KeptSame(sent[..|sent| - 1], refused, refused');
    }
  }

  lemma KeptSnoc(sent: seq<SentBlock>, b: SentBlock, refused: set<nat>)
    ensures Kept(sent + [b], refused) == Kept(sent, refused) + (if b.id in refused then [] else [b])
  {
    assert (sent + [b])[..|sent|] == sent;
  }

  /** A refused stream adds its block to those sent, and none to those kept. */
  lemma RefusedBlock(w: Wire, l: Ledger, l': Ledger, id: nat, w': Wire)
    requires BlocksAgree(w, l) && id !in l.stages && l'.stages == l.stages[id := Refused] && l'.blocks == l.blocks
    requires forall k :: k in l.stages ==> !l.stages[k].Awaiting?
    requires w'.done == w.done || IsOneMore(w, w', id)
    ensures BlocksAgree(w', l')
  {
    KeptSame(w.done, RefusedIds(l), RefusedIds(l'));
    if w'.done != w.done {
      assert id in RefusedIds(l');
      KeptSnoc(w.done, w'.done[|w.done|], RefusedIds(l'));
      assert w'.done == w.done + [w'.done[|w.done|]];
      assert Kept(w'.done, RefusedIds(l')) == Kept(w.done, RefusedIds(l));
    }
  }

  /** One more block, of that stream. */
  ghost predicate IsOneMore(w: Wire, w': Wire, id: nat) {
    |w'.done| == |w.done| + 1 && w'.done[..|w.done|] == w.done && w'.done[|w.done|].id == id
  }

  lemma OctetsSnoc(kept: seq<SentBlock>, sent: SentBlock)
    ensures Octets(kept + [sent]) == Octets(kept) + [sent.block]
  {}

  /** A complete block of a stream that is served is the next one kept. */
  lemma KeptBlock(w: Wire, l: Ledger, id: nat, block: seq<byte>, end: bool)
    requires BlocksAgree(w, l) && (At(l, id).None? || l.stages[id].Awaiting?)
    requires forall k :: k in l.stages && l.stages[k].Awaiting? ==> k == id
    ensures BlocksAgree(Wire(w.done + [SentBlock(id, block)], None), Begin(l, id, end, block))
  {
    var l', sent := Begin(l, id, end, block), SentBlock(id, block);
    var kept := Kept(w.done, RefusedIds(l));
    assert RefusedIds(l') == RefusedIds(l) && id !in RefusedIds(l);
    KeptSnoc(w.done, sent, RefusedIds(l));
    OctetsSnoc(kept, sent);
    forall k | k in l'.stages ensures IsBlockOf(kept + [sent], k, l'.stages[k]) {
      if k != id {
        assert IsBlockOf(kept, k, l.stages[k]);
      }
    }
  }

  /** A frame that is about no header block leaves them alone. */
  lemma OtherBlock(w: Wire, l: Ledger, l': Ledger)
    requires BlocksAgree(w, l) && l'.blocks == l.blocks && l'.stages.Keys == l.stages.Keys
    requires forall id :: id in l.stages ==> Later(Some(l.stages[id]), Some(l'.stages[id]))
    requires forall id :: id in l.stages ==> (l.stages[id].Refused? <==> l'.stages[id].Refused?)
    requires forall id :: id in l.stages ==> (l.stages[id].Awaiting? <==> l'.stages[id].Awaiting?)
    requires forall id :: id in l.stages && l.stages[id].Awaiting? ==> l'.stages[id] == l.stages[id]
    ensures BlocksAgree(w, l')
  {
    assert RefusedIds(l') == RefusedIds(l);
  }

  /** HEADERS that are accepted: nothing waits, and a stream that is served has its block. */
  lemma HeadersAccepted(cfg: Config, core: Core, l: Ledger, f: Frame)
    requires |cfg.code| == 257 && Agrees(cfg, core, l) && FrameStep(cfg, core, f).Next? && f.kind == Headers
    ensures At(l, f.id).None?
    ensures forall id :: id in l.stages ==> !l.stages[id].Awaiting?
    ensures |OpenIds(l)| < cfg.maxStreams ==> BlockIn(f).Some?
  {
    BlockIsStripped(f);
    IdsCount(core.streams);
  }

  lemma AnyBlock(w: Wire, f: Frame)
    requires f.kind == Headers
    ensures NextBlock(w, f).done == w.done || IsOneMore(w, NextBlock(w, f), f.id)
  {}

  lemma HeadersBlock(max: nat, w: Wire, l: Ledger, f: Frame)
    requires BlocksAgree(w, l) && f.kind == Headers && At(l, f.id).None?
    requires forall id :: id in l.stages ==> !l.stages[id].Awaiting?
    requires |OpenIds(l)| < max ==> BlockIn(f).Some?
    ensures BlocksAgree(NextBlock(w, f), Record(max, l, f))
  {
    if |OpenIds(l)| >= max {
      AnyBlock(w, f);
      RefusedBlock(w, l, Record(max, l, f), f.id, NextBlock(w, f));
    } else {
      var block := BlockIn(f).value;
      if IsEndHeaders(f.flags) {
        KeptBlock(w, l, f.id, block, IsEndStream(f.flags));
      } else {
        WaitsForMore(w, l, f.id, Awaiting(IsEndStream(f.flags), block));
      }
    }
  }

  /** A block of a stream that is served goes on. */
  lemma WaitsForMore(w: Wire, l: Ledger, id: nat, stage: Stage)
    requires BlocksAgree(w, l) && stage.Awaiting? && (At(l, id).None? || l.stages[id].Awaiting?)
    requires forall k :: k in l.stages && l.stages[k].Awaiting? ==> k == id
    ensures BlocksAgree(Wire(w.done, Some(SentBlock(id, stage.block))), Put(l, id, stage))
  {
    assert RefusedIds(Put(l, id, stage)) == RefusedIds(l);
  }

  lemma ContinuationBlock(max: nat, w: Wire, l: Ledger, f: Frame)
    requires BlocksAgree(w, l) && f.kind == Continuation && At(l, f.id).Some? && l.stages[f.id].Awaiting?
    requires forall id :: id in l.stages && l.stages[id].Awaiting? ==> id == f.id
    ensures BlocksAgree(NextBlock(w, f), Record(max, l, f))
  {
    var Awaiting(end, block) := l.stages[f.id];
    var whole := block + f.payload;
    assert w.pending == Some(SentBlock(f.id, block));
    if IsEndHeaders(f.flags) {
      assert NextBlock(w, f) == Wire(w.done + [SentBlock(f.id, whole)], None);
      assert Record(max, l, f) == Begin(l, f.id, end, whole);
      KeptBlock(w, l, f.id, whole, end);
    } else {
      assert NextBlock(w, f) == Wire(w.done, Some(SentBlock(f.id, whole)));
      assert Record(max, l, f) == Put(l, f.id, Awaiting(end, whole));
      WaitsForMore(w, l, f.id, Awaiting(end, whole));
    }
  }

  lemma DataBlock(w: Wire, l: Ledger, id: nat, content: seq<byte>, end: bool)
    requires BlocksAgree(w, l)
    ensures BlocksAgree(w, Receive(l, id, content, end))
  {
    forall k {
      ReceiveIsLater(l, id, content, end, k);
    }
    OtherBlock(w, l, Receive(l, id, content, end));
  }

  lemma OtherFrame(max: nat, w: Wire, l: Ledger, f: Frame)
    requires BlocksAgree(w, l) && Accepted(l, f) && f.kind != Headers && f.kind != Continuation
    ensures BlocksAgree(NextBlock(w, f), Record(max, l, f))
  {
    match f.kind
    case Data => DataBlock(w, l, f.id, ContentOf(f).value, IsEndStream(f.flags));
    case Reset =>
      if f.id in OpenIds(l) {
        OtherBlock(w, l, Put(l, f.id, Cancelled));
      }
    case Settings => OtherBlock(w, l, Answer(l, SettingsAckBytes()));
    case Ping => OtherBlock(w, l, Answer(l, PingAckBytes(f.payload)));
    case _ =>
  }

  /**
   The blocks the server decodes are those the peer sent, in order, less those of refused streams; and
   a stream's route is that of its own block.
  */
  lemma {:induction false} BlocksAreSent(cfg: Config, fs: seq<Frame>)
    requires |cfg.code| == 257
    requires After(cfg, FRESH, fs).Next?
    ensures BlocksAgree(SentBlocks(fs), RecordAll(cfg.maxStreams, fs))
    decreases |fs|
  {
    if fs != [] {
      var before, f := fs[..|fs| - 1], fs[|fs| - 1];
      var core, l := After(cfg, FRESH, before).core, RecordAll(cfg.maxStreams, before);
      Unfold(cfg, fs);
      BlocksAreSent(cfg, before);
      RunAgrees(cfg, before);
      BlockStep(cfg, core, l, SentBlocks(before), f);
    }
  }

  lemma BlockStep(cfg: Config, core: Core, l: Ledger, w: Wire, f: Frame)
    requires |cfg.code| == 257 && Agrees(cfg, core, l) && FrameStep(cfg, core, f).Next? && BlocksAgree(w, l)
    ensures BlocksAgree(NextBlock(w, f), Record(cfg.maxStreams, l, f))
  {
    StepIsAccepted(cfg, core, l, f);
    if f.kind == Headers {
      HeadersAccepted(cfg, core, l, f);
      HeadersBlock(cfg.maxStreams, w, l, f);
    } else if f.kind == Continuation {
      OneAwaits(cfg, core, l, f.id);
      ContinuationBlock(cfg.maxStreams, w, l, f);
    } else {
      OtherFrame(cfg.maxStreams, w, l, f);
    }
  }

  lemma OneAwaits(cfg: Config, core: Core, l: Ledger, id: nat)
    requires |cfg.code| == 257 && Agrees(cfg, core, l) && At(l, id).Some? && l.stages[id].Awaiting?
    ensures forall k :: k in l.stages && l.stages[k].Awaiting? ==> k == id
  {}

  lemma StepIsAccepted(cfg: Config, core: Core, l: Ledger, f: Frame)
    requires |cfg.code| == 257 && Agrees(cfg, core, l) && FrameStep(cfg, core, f).Next?
    ensures Accepted(l, f)
  {
    StepAdvances(cfg, core, l, f, 0);
  }

  // ---------------------------------------------------------------- when a refused block matters

  /** What a peer means by the blocks it sent: refused ones change its table all the same. */
  function ClientReference(std: Standard, services: seq<Service>, sent: seq<SentBlock>, refused: set<nat>)
    : (r: Option<Read>)
    requires |std.huffman| == 257 && |std.statics| == STATIC_LEN
    ensures r.Some? ==> |r.value.routes| == |Kept(sent, refused)|
    decreases |sent|
  {
    if sent == [] then Some(Read(EMPTY, []))
    else
      var last := sent[|sent| - 1];
      match ClientReference(std, services, sent[..|sent| - 1], refused)
      case None => None
      case Some(Read(peer, routes)) =>
        match DecodeBlock(std, peer, last.block)
        case None => None
        case Some((peer', hs)) =>
          if last.id in refused then Some(Read(peer', routes))
          else if |Paths(hs)| != 1 then None
          else
            match RouteOf(services, Paths(hs)[0])
            case None => None
            case Some(route) => Some(Read(peer', routes + [(route, EncodingIn(hs))]))
  }

  /** The blocks that are served are tame, from the states in which the peer sent them. */
  ghost predicate ClientTame(std: Standard, services: seq<Service>, sent: seq<SentBlock>, refused: set<nat>,
          strict: bool)
    requires ValidStandard(std)
    decreases |sent|
  {
    sent != [] ==>
      var before, last := sent[..|sent| - 1], sent[|sent| - 1];
      && ClientTame(std, services, before, refused, strict)
      && (last.id !in refused && ClientReference(std, services, before, refused).Some? ==>
            Tame(std, ClientReference(std, services, before, refused).value.peer, last.block, strict))
  }

  /** What the server makes of the blocks that it decodes. */
  function ServeKept(std: Standard, services: seq<Service>, sent: seq<SentBlock>, refused: set<nat>): Result<Served>
    requires |std.huffman| == 257
  {
    Serve(std.huffman, services, Octets(Kept(sent, refused)))
  }

  /** The peer's table, refused blocks included, is the recent part of the server's. */
  ghost predicate Related(std: Standard, services: seq<Service>, sent: seq<SentBlock>, refused: set<nat>, strict: bool)
    requires |std.huffman| == 257 && |std.statics| == STATIC_LEN
  {
    match (ServeKept(std, services, sent, refused), ClientReference(std, services, sent, refused))
    case (Ok(served), Some(client)) =>
      TableSim(services, served.cache, served.st.dynamic, client.peer.table, strict)
    case _ => false
  }

  predicate EndsRefused(sent: seq<SentBlock>, refused: set<nat>) {
    sent != [] && sent[|sent| - 1].id in refused
  }

  /** Whenever a block is served after refused ones, the tables are related. */
  ghost predicate Harmless(std: Standard, services: seq<Service>, sent: seq<SentBlock>, refused: set<nat>, strict: bool)
    requires |std.huffman| == 257 && |std.statics| == STATIC_LEN
    decreases |sent|
  {
    sent != [] ==>
      var before, last := sent[..|sent| - 1], sent[|sent| - 1];
      && Harmless(std, services, before, refused, strict)
      && (last.id !in refused && EndsRefused(before, refused) ==> Related(std, services, before, refused, strict))
  }

  lemma {:induction false} DecodeFits(std: Standard, p: Peer, block: seq<byte>)
    requires |std.huffman| == 257 && |std.statics| == STATIC_LEN && Fits(p) && DecodeBlock(std, p, block).Some?
    ensures Fits(DecodeBlock(std, p, block).value.0)
    decreases |block|
  {
    if block != [] {
      var (f, n) := ParseField(std.maxInt, block).value;
      DecodeFits(std, Apply(std, p, f).value.0, block[n..]);
    }
  }

  /** One more block that is served, from related tables. */
  lemma ServedInParallel(std: Standard, services: seq<Service>, before: seq<SentBlock>, last: SentBlock,
          refused: set<nat>, strict: bool)
    requires Setting(std) && last.id !in refused && Related(std, services, before, refused, strict)
    requires Parallel(std, services, ServeKept(std, services, before, refused),
                      ClientReference(std, services, before, refused), strict)
    requires ClientReference(std, services, before + [last], refused).Some?
    requires Tame(std, ClientReference(std, services, before, refused).value.peer, last.block, strict)
    ensures Parallel(std, services, ServeKept(std, services, before + [last], refused),
                     ClientReference(std, services, before + [last], refused), strict)
    ensures Related(std, services, before + [last], refused, strict)
  {
    assert (before + [last])[..|before|] == before;
    KeptSnoc(before, last, refused);
    OctetsSnoc(Kept(before, refused), last);
    var served := ServeKept(std, services, before, refused).value;
    var p := ClientReference(std, services, before, refused).value.peer;
    ResolveAgrees(std, services, served.st, served.cache, p, last.block, strict);
    DecodeFits(std, p, last.block);
    var r := ResolveResult(std.huffman, services, served.st, served.cache, last.block).value;
    RouteLimits.ServeOne(std.huffman, services, Octets(Kept(before, refused)), served, last.block, r);
  }

  /** A refused block takes the peer further, and the server nowhere. */
  lemma RefusedStays(std: Standard, services: seq<Service>, before: seq<SentBlock>, last: SentBlock, refused: set<nat>)
    requires |std.huffman| == 257 && |std.statics| == STATIC_LEN && last.id in refused
    requires ClientReference(std, services, before + [last], refused).Some?
    ensures Kept(before + [last], refused) == Kept(before, refused)
    ensures ClientReference(std, services, before, refused).Some?
    ensures var Read(p, routes) := ClientReference(std, services, before, refused).value;
            var decoded := DecodeBlock(std, p, last.block);
            && decoded.Some?
            && ClientReference(std, services, before + [last], refused) == Some(Read(decoded.value.0, routes))
  {
    assert (before + [last])[..|before|] == before;
    KeptSnoc(before, last, refused);
  }

  lemma RefusedInParallel(std: Standard, services: seq<Service>, before: seq<SentBlock>, last: SentBlock,
          refused: set<nat>, strict: bool)
    requires ValidStandard(std) && last.id in refused
    requires Parallel(std, services, ServeKept(std, services, before, refused),
                      ClientReference(std, services, before, refused), strict)
    requires ClientReference(std, services, before + [last], refused).Some?
    ensures Parallel(std, services, ServeKept(std, services, before + [last], refused),
                     ClientReference(std, services, before + [last], refused), strict)
  {
    RefusedStays(std, services, before, last, refused);
    DecodeFits(std, ClientReference(std, services, before, refused).value.peer, last.block);
  }

  lemma SplitLast(sent: seq<SentBlock>) returns (before: seq<SentBlock>, last: SentBlock)
    requires sent != []
    ensures sent == before + [last]
  {
    before, last := sent[..|sent| - 1], sent[|sent| - 1];
  }

  /** What is assumed of blocks is assumed of those before the last, and of the last. */
  lemma BlocksBefore(std: Standard, services: seq<Service>, before: seq<SentBlock>, last: SentBlock,
          refused: set<nat>, strict: bool)
    requires ValidStandard(std) && ClientReference(std, services, before + [last], refused).Some?
    requires ClientTame(std, services, before + [last], refused, strict)
    requires Harmless(std, services, before + [last], refused, strict)
    ensures ClientReference(std, services, before, refused).Some?
    ensures ClientTame(std, services, before, refused, strict) && Harmless(std, services, before, refused, strict)
    ensures last.id !in refused ==>
              && (EndsRefused(before, refused) ==> Related(std, services, before, refused, strict))
              && Tame(std, ClientReference(std, services, before, refused).value.peer, last.block, strict)
  {
    assert (before + [last])[..|before|] == before;
  }

  lemma NextInParallel(std: Standard, services: seq<Service>, before: seq<SentBlock>, last: SentBlock,
          refused: set<nat>, strict: bool)
    requires Setting(std) && ClientReference(std, services, before + [last], refused).Some?
    requires Parallel(std, services, ServeKept(std, services, before, refused),
                      ClientReference(std, services, before, refused), strict)
    requires last.id in refused || (
               && Related(std, services, before, refused, strict)
               && Tame(std, ClientReference(std, services, before, refused).value.peer, last.block, strict))
    ensures var sent := before + [last];
            && Parallel(std, services, ServeKept(std, services, sent, refused),
                        ClientReference(std, services, sent, refused), strict)
            && (EndsRefused(sent, refused) || Related(std, services, sent, refused, strict))
  {
    if last.id in refused {
      RefusedInParallel(std, services, before, last, refused, strict);
    } else {
      ServedInParallel(std, services, before, last, refused, strict);
    }
  }

  /**
   Over every run of blocks whose refused ones are harmless, the routes of those that are served are
   what the peer meant by them, all blocks being decoded, and a linear search.
  */
  lemma {:induction false} KeptMeansSame(std: Standard, services: seq<Service>, sent: seq<SentBlock>,
          refused: set<nat>, strict: bool)
    requires Setting(std) && ClientReference(std, services, sent, refused).Some?
    requires ClientTame(std, services, sent, refused, strict) && Harmless(std, services, sent, refused, strict)
    ensures Parallel(std, services, ServeKept(std, services, sent, refused),
                     ClientReference(std, services, sent, refused), strict)
    ensures EndsRefused(sent, refused) || Related(std, services, sent, refused, strict)
    decreases |sent|
  {
    if sent == [] {
      assert Octets(Kept(sent, refused)) == [];
    } else {
      var before, last := SplitLast(sent);
      BlocksBefore(std, services, before, last, refused, strict);
      KeptMeansSame(std, services, before, refused, strict);
      NextInParallel(std, services, before, last, refused, strict);
    }
  }

  /**
   At any point of such a run, refused blocks included, every good request that the peer may send next
   is served rightly if and only if the tables are related.
  */
  lemma HarmlessExact(std: Standard, services: seq<Service>, sent: seq<SentBlock>, refused: set<nat>, a: seq<byte>,
          b: seq<byte>, strict: bool)
    requires Setting(std) && std.maxInt == MAX_BYTES && Apart(services, a, b)
    requires ClientReference(std, services, sent, refused).Some?
    requires ClientTame(std, services, sent, refused, strict) && Harmless(std, services, sent, refused, strict)
    ensures ServeKept(std, services, sent, refused).Ok?
    ensures var served := ServeKept(std, services, sent, refused).value;
            var p := ClientReference(std, services, sent, refused).value.peer;
            AllRight(std, services, served.st, served.cache, p, strict) <==>
            Related(std, services, sent, refused, strict)
  {
    KeptMeansSame(std, services, sent, refused, strict);
    var served := ServeKept(std, services, sent, refused).value;
    var p := ClientReference(std, services, sent, refused).value.peer;
    DriftExact(std, services, served.st, served.cache, p, a, b, strict);
  }

  /** The fields of a block put nothing into the table. */
  predicate InsertsNone(std: Standard, block: seq<byte>)
    decreases |block|
  {
    block != [] && ParseField(std.maxInt, block).Some? ==>
      var (f, n) := ParseField(std.maxInt, block).value;
      !(f.Literal? && f.indexing) && InsertsNone(std, block[n..])
  }

  lemma {:induction false} InsertsNoneEvicts(std: Standard, p: Peer, block: seq<byte>)
    requires |std.huffman| == 257 && |std.statics| == STATIC_LEN
    requires DecodeBlock(std, p, block).Some? && InsertsNone(std, block)
    ensures DecodeBlock(std, p, block).value.0.table <= p.table
    decreases |block|
  {
    if block != [] {
      var (f, n) := ParseField(std.maxInt, block).value;
      InsertsNoneEvicts(std, Apply(std, p, f).value.0, block[n..]);
    }
  }

  /** A refused block that puts nothing into the table is harmless, whatever it evicts. */
  lemma EvictingIsHarmless(std: Standard, services: seq<Service>, before: seq<SentBlock>, last: SentBlock,
          refused: set<nat>, strict: bool)
    requires ValidStandard(std) && last.id in refused && InsertsNone(std, last.block)
    requires Related(std, services, before, refused, strict)
    requires ClientReference(std, services, before + [last], refused).Some?
    ensures Related(std, services, before + [last], refused, strict)
  {
    RefusedStays(std, services, before, last, refused);
    InsertsNoneEvicts(std, ClientReference(std, services, before, refused).value.peer, last.block);
  }

  ghost predicate RouteFits(routes: Routed, stage: Option<Stage>, c: Call) {
    && stage.Some? && stage.value.Dispatched? && stage.value.k < |routes|
    && (c.isvc, c.disc) == routes[stage.value.k].0
  }

  /**
   Every call of a run, in order of dispatch, is for the stream whose block has its number among those
   kept. If the refused blocks were harmless, it has the route that the peer meant by that block, after
   all that it sent, and a linear search; and with `strict` the message under the encoding it meant.
  */
  lemma CallsAreReferenced(std: Standard, cfg: Config, fs: seq<Frame>, strict: bool)
    requires Setting(std) && cfg.code == std.huffman
    requires After(cfg, FRESH, fs).Next?
    requires var l := RecordAll(cfg.maxStreams, fs);
             var sent := SentBlocks(fs).done;
             && ClientReference(std, cfg.services, sent, RefusedIds(l)).Some?
             && ClientTame(std, cfg.services, sent, RefusedIds(l), strict)
             && Harmless(std, cfg.services, sent, RefusedIds(l), strict)
    ensures var core, l := After(cfg, FRESH, fs).core, RecordAll(cfg.maxStreams, fs);
            var sent := SentBlocks(fs).done;
            var routes := ClientReference(std, cfg.services, sent, RefusedIds(l)).value.routes;
            && |core.calls| == |l.done|
            && forall i :: 0 <= i < |core.calls| ==>
                 var stage := At(l, core.calls[i].id);
                 && core.calls[i].id == l.done[i]
                 && RouteFits(routes, stage, core.calls[i])
                 && Kept(sent, RefusedIds(l))[stage.value.k].id == core.calls[i].id
                 && (strict ==> CallFits(cfg, routes, stage, core.calls[i]))
  {
    var core, l := After(cfg, FRESH, fs).core, RecordAll(cfg.maxStreams, fs);
    RunAgrees(cfg, fs);
    BlocksAreSent(cfg, fs);
    KeptMeansSame(std, cfg.services, SentBlocks(fs).done, RefusedIds(l), strict);
    forall i | 0 <= i < |core.calls| ensures CallFits(cfg, Routes(cfg, l), At(l, l.done[i]), core.calls[i]) {}
    forall i | 0 <= i < |core.calls|
      ensures IsBlockOf(Kept(SentBlocks(fs).done, RefusedIds(l)), l.done[i], l.stages[l.done[i]])
    {
      assert CallFits(cfg, Routes(cfg, l), At(l, l.done[i]), core.calls[i]);
    }
  }

  lemma {:induction false} AllKept(sent: seq<SentBlock>)
    ensures Kept(sent, {}) == sent
    decreases |sent|
  {
    if sent != [] {
      AllKept(sent[..|sent| - 1]);
    }
  }

  /** Without refusals there is nothing to harm. */
  lemma {:induction false} NoneHarms(std: Standard, services: seq<Service>, sent: seq<SentBlock>, strict: bool)
    requires ValidStandard(std) && AllTame(std, services, Octets(sent), strict)
    ensures ClientReference(std, services, sent, {}) == Reference(std, services, Octets(sent))
    ensures ClientTame(std, services, sent, {}, strict) && Harmless(std, services, sent, {}, strict)
    decreases |sent|
  {
    if sent != [] {
      FirstOctets(sent);
      NoneHarms(std, services, sent[..|sent| - 1], strict);
    }
  }

  lemma FirstOctets(sent: seq<SentBlock>)
    requires sent != []
    ensures Octets(sent)[..|sent| - 1] == Octets(sent[..|sent| - 1])
  {}

  /** When no HEADERS is refused, the calls have the routes of all the blocks the peer sent. */
  lemma CallsOfUnrefused(std: Standard, cfg: Config, fs: seq<Frame>, strict: bool)
    requires Setting(std) && cfg.code == std.huffman
    requires After(cfg, FRESH, fs).Next? && RefusedIds(RecordAll(cfg.maxStreams, fs)) == {}
    requires var blocks := Octets(SentBlocks(fs).done);
             AllTame(std, cfg.services, blocks, strict) && Reference(std, cfg.services, blocks).Some?
    ensures var core, l := After(cfg, FRESH, fs).core, RecordAll(cfg.maxStreams, fs);
            var sent := SentBlocks(fs).done;
            var routes := Reference(std, cfg.services, Octets(sent)).value.routes;
            forall i :: 0 <= i < |core.calls| ==>
              var stage := At(l, core.calls[i].id);
              && RouteFits(routes, stage, core.calls[i])
              && sent[stage.value.k].id == core.calls[i].id
              && (strict ==> CallFits(cfg, routes, stage, core.calls[i]))
  {
    var sent := SentBlocks(fs).done;
    AllKept(sent);
    NoneHarms(std, cfg.services, sent, strict);
    BlocksAreSent(cfg, fs);
    CallsAreReferenced(std, cfg, fs, strict);
  }

  // ---------------------------------------------------------------- a refused block that matters

  function PathField(path: seq<byte>): Field {
    Literal(true, ByText(Plain(PATH)), Plain(path))
  }

  /** The octets of a block that puts its path into the table. */
  function PathBlock(path: seq<byte>): seq<byte> {
    BlockBytes([PathField(path)])
  }

  /** Two requests, of which the second finds no room; the first is reset; and one for the newest path. */
  function Misroute(a: seq<byte>, b: seq<byte>): seq<Frame> {
    [Frame(Headers, END_HEADERS, 1, PathBlock(a)), Frame(Headers, END_HEADERS, 3, PathBlock(b)),
     Frame(Reset, 0, 1, BeBytes(0)), Frame(Headers, 5, 5, BlockBytes([Indexed(62)]))]
  }

  const ONE_PATH: State := State(1, [Entry(Some(0), None)], map[], map[])

  lemma ApplyNewPath(code: Huffman.Code, path: seq<byte>)
    requires |code| == 257
    ensures ApplyField(code, Start(INITIAL), PathField(path)) == Ok(Scan(ONE_PATH, Some(PlainPath(path)), Identity))
  {
    assert Match(code, [], ByText(Plain(PATH)), Plain(path)) == Ok(PathMatch(Plain(path)));
    assert [] + [Entry(Some(0), None)] == [Entry(Some(0), None)];
  }

  lemma ScanNewPath(code: Huffman.Code, path: seq<byte>)
    requires |code| == 257 && |path| < 4000
    ensures ScanBlock(code, Start(INITIAL), PathBlock(path)) == Ok(Scan(ONE_PATH, Some(PlainPath(path)), Identity))
  {
    ApplyNewPath(code, path);
    RouteLimits.OneScan(code, Start(INITIAL), PathField(path));
    RouteLimits.WrittenScans(code, Start(INITIAL), [PathField(path)]);
  }

  lemma ScanNewest(code: Huffman.Code)
    requires |code| == 257
    ensures ScanBlock(code, Start(ONE_PATH), BlockBytes([Indexed(62)])) == Ok(Scan(ONE_PATH, Some(Cached(0)), Identity))
  {
    RouteLimits.WrittenScans(code, Start(ONE_PATH), [Indexed(62)]);
    RouteLimits.OneScan(code, Start(ONE_PATH), Indexed(62));
  }

  /** What the server makes of a new path, and of its newest entry. */
  lemma ServerReadsPaths(code: Huffman.Code, services: seq<Service>, path: seq<byte>, route: Route)
    requires |code| == 257 && |path| < 4000 && RouteOf(services, path) == Some(route)
    ensures var r := Resolved(ONE_PATH, [route], route, Identity);
            && ResolveResult(code, services, INITIAL, [], PathBlock(path)) == Ok(r)
            && ResolveResult(code, services, ONE_PATH, [route], BlockBytes([Indexed(62)])) == Ok(r)
  {
    ScanNewPath(code, path);
    RouteLimits.ScanResolves(code, services, INITIAL, [], PathBlock(path),
      Scan(ONE_PATH, Some(PlainPath(path)), Identity), route);
    assert [] + [route] == [route];
    ScanNewest(code);
    RouteLimits.ScanResolves(code, services, ONE_PATH, [route], BlockBytes([Indexed(62)]),
      Scan(ONE_PATH, Some(Cached(0)), Identity), route);
  }

  /** What the peer meant: the newest path is the one of the block that was refused. */
  lemma PeerMeansPaths(std: Standard, a: seq<byte>, b: seq<byte>)
    requires |std.huffman| == 257 && |std.statics| == STATIC_LEN && std.maxInt >= MAX_BYTES
    requires |a| + |b| < 4000
    ensures var p1, p2 := Peer([Header(PATH, a)], TABLE_SIZE), Peer([Header(PATH, b), Header(PATH, a)], TABLE_SIZE);
            && DecodeBlock(std, EMPTY, PathBlock(a)) == Some((p1, [Header(PATH, a)]))
            && DecodeBlock(std, p1, PathBlock(b)) == Some((p2, [Header(PATH, b)]))
            && DecodeBlock(std, p2, BlockBytes([Indexed(62)])) == Some((p2, [Header(PATH, b)]))
  {
    var h, k := Header(PATH, a), Header(PATH, b);
    var p1, p2 := Peer([h], TABLE_SIZE), Peer([k, h], TABLE_SIZE);
    assert Insert(EMPTY, h) == p1 by {
      assert [h] + [] == [h] && [h][1..] == [];
    }
    assert Insert(p1, k) == p2 by {
      assert [k] + [h] == [k, h] && [k, h][1..] == [h] && [h][1..] == [];
      assert Size([h]) == |a| + 37 && Size([k, h]) == |b| + 37 + Size([h]);
    }
    BlockReadsBack(std, EMPTY, [PathField(a)]);
    RouteLimits.OneField(std, EMPTY, PathField(a), p1, h);
    BlockReadsBack(std, p1, [PathField(b)]);
    RouteLimits.OneField(std, p1, PathField(b), p2, k);
    BlockReadsBack(std, p2, [Indexed(62)]);
    RouteLimits.OneField(std, p2, Indexed(62), p2, k);
  }

  // ---- the run

  lemma MisrouteServed(cfg: Config, a: seq<byte>, b: seq<byte>, ra: Route)
    requires |cfg.code| == 257 && cfg.maxStreams == 1
    requires |a| < 4000 && RouteOf(cfg.services, a) == Some(ra)
    ensures var run := After(cfg, FRESH, Misroute(a, b));
            run.Next? && run.core.calls == [Call(ra.0, ra.1, [], 5)]
  {
    var fs := Misroute(a, b);
    ServerReadsPaths(cfg.code, cfg.services, a, ra);
    var open := [Stream(1, ra.0, ra.1, Identity, [])];
    var c1 := FRESH.(streams := open, dec := ONE_PATH, cache := [ra], last := 1);
    var c2 := c1.(last := 3, writes := [RstBytes(3)]);
    var c3 := c2.(streams := []);
    var c4 := c3.(last := 5, calls := [Call(ra.0, ra.1, [], 5)]);
    FirstStep(cfg, fs[0], PathBlock(a), ra);
    RefusedStep(cfg, c1, fs[1]);
    ResetStep(cfg, c2, fs[2]);
    LastStep(cfg, c3, fs[3], ra);
    FourSteps(cfg, fs, c1, c2, c3, c4);
  }

  lemma FourSteps(cfg: Config, fs: seq<Frame>, c1: Core, c2: Core, c3: Core, c4: Core)
    requires |cfg.code| == 257 && |fs| == 4
    requires FrameStep(cfg, FRESH, fs[0]) == Next(c1) && FrameStep(cfg, c1, fs[1]) == Next(c2)
    requires FrameStep(cfg, c2, fs[2]) == Next(c3) && FrameStep(cfg, c3, fs[3]) == Next(c4)
    ensures After(cfg, FRESH, fs) == Next(c4)
  {
    assert fs[..1][..0] == [] && fs[..2][..1] == fs[..1] && fs[..3][..2] == fs[..2];
    AfterLast(cfg, FRESH, fs[..1], []);
    AfterLast(cfg, FRESH, fs[..2], fs[..1]);
    AfterLast(cfg, FRESH, fs[..3], fs[..2]);
    AfterLast(cfg, FRESH, fs, fs[..3]);
  }

  lemma NothingToStrip(block: seq<byte>)
    ensures StripHeaders(END_HEADERS, block) == Ok(block)
    ensures IsEndHeaders(END_HEADERS) && !IsEndStream(END_HEADERS)
  {}

  lemma FirstStep(cfg: Config, f: Frame, block: seq<byte>, ra: Route)
    requires |cfg.code| == 257 && cfg.maxStreams == 1 && f == Frame(Headers, END_HEADERS, 1, block)
    requires ResolveResult(cfg.code, cfg.services, INITIAL, [], block) == Ok(Resolved(ONE_PATH, [ra], ra, Identity))
    ensures FrameStep(cfg, FRESH, f) ==
            Next(FRESH.(streams := [Stream(1, ra.0, ra.1, Identity, [])], dec := ONE_PATH, cache := [ra], last := 1))
  {
    NothingToStrip(block);
    assert [] + [Stream(1, ra.0, ra.1, Identity, [])] == [Stream(1, ra.0, ra.1, Identity, [])];
  }

  lemma RefusedStep(cfg: Config, core: Core, f: Frame)
    requires |cfg.code| == 257 && |core.streams| >= cfg.maxStreams && core.cont.None? && core.writes == []
    requires f.kind == Headers && f.id % 2 == 1 && core.last < f.id
    ensures FrameStep(cfg, core, f) == Next(core.(last := f.id, writes := [RstBytes(f.id)]))
  {
    assert [] + [RstBytes(f.id)] == [RstBytes(f.id)];
  }

  lemma ResetStep(cfg: Config, core: Core, f: Frame)
    requires |cfg.code| == 257 && core.cont.None? && |core.streams| == 1
    requires f.kind == Reset && |f.payload| == 4 && f.id == core.streams[0].id
    ensures FrameStep(cfg, core, f) == Next(core.(streams := []))
  {
    FindIsMember(core.streams, f.id);
    assert f.id in Ids(core.streams);
    assert Remove(core.streams, 0) == [];
  }

  lemma LastStep(cfg: Config, core: Core, f: Frame, ra: Route)
    requires |cfg.code| == 257 && cfg.maxStreams == 1 && core.streams == [] && core.cont.None? && core.calls == []
    requires core.dec == ONE_PATH && core.cache == [ra] && core.last == 3
    requires f == Frame(Headers, 5, 5, BlockBytes([Indexed(62)]))
    requires ResolveResult(cfg.code, cfg.services, ONE_PATH, [ra], f.payload) ==
             Ok(Resolved(ONE_PATH, [ra], ra, Identity))
    ensures FrameStep(cfg, core, f) == Next(core.(last := 5, calls := [Call(ra.0, ra.1, [], 5)]))
  {
    assert [] + [Call(ra.0, ra.1, [], 5)] == [Call(ra.0, ra.1, [], 5)];
  }

  function MisrouteBlocks(a: seq<byte>, b: seq<byte>): seq<SentBlock> {
    [SentBlock(1, PathBlock(a)), SentBlock(3, PathBlock(b)), SentBlock(5, BlockBytes([Indexed(62)]))]
  }

  /** HEADERS that are a whole block, with neither padding nor priority. */
  lemma WholeBlock(w: Wire, f: Frame)
    requires f.kind == Headers && !IsPadded(f.flags) && !IsPriority(f.flags) && IsEndHeaders(f.flags)
    ensures BlockIn(f) == Some(f.payload)
    ensures NextBlock(w, f) == Wire(w.done + [SentBlock(f.id, f.payload)], None)
  {
    BlockIsStripped(f);
  }

  lemma MisrouteSent(a: seq<byte>, b: seq<byte>)
    ensures SentBlocks(Misroute(a, b)).done == MisrouteBlocks(a, b)
  {
    var fs := Misroute(a, b);
    var w0 := Wire([], None);
    var w1, w2 := NextBlock(w0, fs[0]), NextBlock(NextBlock(w0, fs[0]), fs[1]);
    WholeBlock(w0, fs[0]);
    WholeBlock(w1, fs[1]);
    WholeBlock(w2, fs[3]);
    assert fs[..1][..0] == [] && fs[..2][..1] == fs[..1] && fs[..3][..2] == fs[..2];
    assert SentBlocks([]) == w0;
    assert SentBlocks(fs[..1]) == w1;
    assert SentBlocks(fs[..2]) == w2;
    assert SentBlocks(fs[..3]) == w2;
    assert SentBlocks(fs) == NextBlock(w2, fs[3]);
  }

  lemma RecordOne(max: nat, fs: seq<Frame>, k: nat)
    requires k < |fs|
    ensures RecordAll(max, fs[..k + 1]) == Record(max, RecordAll(max, fs[..k]), fs[k])
  {
    assert fs[..k + 1][..k] == fs[..k];
  }

  /** Complete HEADERS when there is room. */
  lemma RecordServed(max: nat, l: Ledger, f: Frame)
    requires f.kind == Headers && |OpenIds(l)| < max && !IsPadded(f.flags) && !IsPriority(f.flags)
             && IsEndHeaders(f.flags)
    ensures Record(max, l, f) == Begin(l, f.id, IsEndStream(f.flags), f.payload)
  {
    WholeBlock(Wire([], None), f);
  }

  lemma MisrouteRefused(a: seq<byte>, b: seq<byte>)
    ensures RefusedIds(RecordAll(1, Misroute(a, b))) == {3}
  {
    var fs := Misroute(a, b);
    assert OpenIds(BLANK) == {};
    var l1 := Record(1, BLANK, fs[0]);
    RecordServed(1, BLANK, fs[0]);
    RecordFour(1, fs);
    RecordRest(l1, fs);
  }

  lemma RecordFour(max: nat, fs: seq<Frame>)
    requires |fs| == 4
    ensures RecordAll(max, fs) == Record(max, Record(max, Record(max, Record(max, BLANK, fs[0]), fs[1]), fs[2]), fs[3])
  {
    assert fs[..0] == [] && fs[..4] == fs;
    RecordOne(max, fs, 0);
    RecordOne(max, fs, 1);
    RecordOne(max, fs, 2);
    RecordOne(max, fs, 3);
  }

  lemma RecordRest(l1: Ledger, fs: seq<Frame>)
    requires |fs| == 4 && l1.stages.Keys == {1} && l1.stages[1].Open?
    requires fs[1].kind == Headers && fs[1].id == 3 && fs[2].kind == Reset && fs[2].id == 1
    requires fs[3].kind == Headers && fs[3].id == 5 && fs[3].flags == 5
    ensures RefusedIds(Record(1, Record(1, Record(1, l1, fs[1]), fs[2]), fs[3])) == {3}
  {
    var l2 := Put(Answer(l1, RstBytes(3)), 3, Refused);
    var l3 := Put(l2, 1, Cancelled);
    assert OpenIds(l1) == {1};
    assert Record(1, l1, fs[1]) == l2;
    assert OpenIds(l2) == {1};
    assert Record(1, l2, fs[2]) == l3;
    assert OpenIds(l3) == {};
    RecordServed(1, l3, fs[3]);
  }

  lemma ClientServed(std: Standard, services: seq<Service>, before: seq<SentBlock>, read: Read, sent: SentBlock,
          refused: set<nat>, p: Peer, r: (Route, GrpcEncoding))
    requires |std.huffman| == 257 && |std.statics| == STATIC_LEN
    requires ClientReference(std, services, before, refused) == Some(read) && sent.id !in refused
    requires RouteLimits.BlockRead(std, services, read.peer, sent.block, p, r)
    ensures ClientReference(std, services, before + [sent], refused) == Some(Read(p, read.routes + [r]))
    ensures Kept(before + [sent], refused) == Kept(before, refused) + [sent]
  {
    assert (before + [sent])[..|before|] == before;
  }

  lemma ClientRefused(std: Standard, services: seq<Service>, before: seq<SentBlock>, read: Read, sent: SentBlock,
          refused: set<nat>, p: Peer)
    requires |std.huffman| == 257 && |std.statics| == STATIC_LEN
    requires ClientReference(std, services, before, refused) == Some(read) && sent.id in refused
    requires DecodeBlock(std, read.peer, sent.block).Some? && DecodeBlock(std, read.peer, sent.block).value.0 == p
    ensures ClientReference(std, services, before + [sent], refused) == Some(Read(p, read.routes))
    ensures Kept(before + [sent], refused) == Kept(before, refused)
  {
    assert (before + [sent])[..|before|] == before;
  }

  lemma MisrouteMeant(std: Standard, services: seq<Service>, a: seq<byte>, b: seq<byte>, ra: Route, rb: Route)
    requires |std.huffman| == 257 && |std.statics| == STATIC_LEN && std.maxInt >= MAX_BYTES
    requires |a| + |b| < 4000 && RouteOf(services, a) == Some(ra) && RouteOf(services, b) == Some(rb)
    ensures var sent := MisrouteBlocks(a, b);
            var read := ClientReference(std, services, sent, {3});
            && read.Some? && read.value.routes == [(ra, Identity), (rb, Identity)]
            && Kept(sent, {3}) == [sent[0], sent[2]]
  {
    PeerMeansPaths(std, a, b);
    OnePath(a);
    OnePath(b);
    var sent := MisrouteBlocks(a, b);
    var p1, p2 := Peer([Header(PATH, a)], TABLE_SIZE), Peer([Header(PATH, b), Header(PATH, a)], TABLE_SIZE);
    SecondRefused(std, services, sent[0], sent[1], sent[2], p1, (ra, Identity), p2, p2, (rb, Identity));
  }

  /** Three blocks, the second of a stream that was refused. */
  lemma SecondRefused(std: Standard, services: seq<Service>, s1: SentBlock, s2: SentBlock, s3: SentBlock,
          p1: Peer, r1: (Route, GrpcEncoding), p2: Peer, p3: Peer, r3: (Route, GrpcEncoding))
    requires |std.huffman| == 257 && |std.statics| == STATIC_LEN
    requires s1.id != 3 && s2.id == 3 && s3.id != 3
    requires RouteLimits.BlockRead(std, services, EMPTY, s1.block, p1, r1)
    requires DecodeBlock(std, p1, s2.block).Some? && DecodeBlock(std, p1, s2.block).value.0 == p2
    requires RouteLimits.BlockRead(std, services, p2, s3.block, p3, r3)
    ensures ClientReference(std, services, [s1, s2, s3], {3}) == Some(Read(p3, [r1, r3]))
    ensures Kept([s1, s2, s3], {3}) == [s1, s3]
  {
    assert [] + [r1] == [r1] && [r1] + [r3] == [r1, r3];
    assert [] + [s1] == [s1] && [s1] + [s3] == [s1, s3];
    assert ([s1] + [s2]) + [s3] == [s1, s2, s3];
    ClientServed(std, services, [], Read(EMPTY, []), s1, {3}, p1, r1);
    ClientRefused(std, services, [s1], Read(p1, [r1]), s2, {3}, p2);
    ClientServed(std, services, [s1] + [s2], Read(p2, [r1]), s3, {3}, p3, r3);
  }

  lemma OnePath(path: seq<byte>)
    ensures Paths([Header(PATH, path)]) == [path] && EncodingIn([Header(PATH, path)]) == Identity
  {
    var h := Header(PATH, path);
    RouteLimits.NamesDiffer();
    SeePath([], h);
    assert [] + [h] == [h];
  }

  /**
   A refused block that matters: the peer names the path of the block that was refused, and its request,
   the second that is served, gets the route of the first.
  */
  lemma RefusedBlockMisroutes(std: Standard, cfg: Config, a: seq<byte>, b: seq<byte>, ra: Route, rb: Route)
    requires ValidStandard(std) && std.maxInt == MAX_BYTES && cfg.code == std.huffman && cfg.maxStreams == 1
    requires |a| + |b| < 4000
    requires RouteOf(cfg.services, a) == Some(ra) && RouteOf(cfg.services, b) == Some(rb) && ra != rb
    ensures var fs := Misroute(a, b);
            var run, l := After(cfg, FRESH, fs), RecordAll(cfg.maxStreams, fs);
            var read := ClientReference(std, cfg.services, SentBlocks(fs).done, RefusedIds(l));
            && run.Next? && run.core.calls == [Call(ra.0, ra.1, [], 5)]
            && read.Some? && |Kept(SentBlocks(fs).done, RefusedIds(l))| == 2
            && Kept(SentBlocks(fs).done, RefusedIds(l))[1].id == 5
            && read.value.routes[1].0 == rb
  {
    MisrouteServed(cfg, a, b, ra);
    MisrouteRefused(a, b);
    MisrouteMeant(std, cfg.services, a, b, ra, rb);
    MisrouteSent(a, b);
  }
}
