/**
 Answers (pajamax/src/dispatch.rs, pajamax/src/response_end.rs): a handler answers its stream itself
 or hands the request to a shard, shards answer when they like, and one writer takes the answers in
 the order they come. The claim is that no stream is ever answered twice, whatever the order.
*/
module Dispatch {
  import opened Wrappers
  import opened Bits
  import opened Http2
  import opened HpackReference
  import opened HpackEncoder
  import opened Frames
  import opened Ledger
  import opened Runs
  import opened Writer

  // ---------------------------------------------------------------- channels

  /** The send end of an unbounded channel: it fails when the receiver is gone. */
  class Channel<T> {
    var queue: seq<T>
    var open: bool

    constructor ()
      ensures queue == [] && open
    {
      queue, open := [], true;
    }

    method Send(x: T) returns (ok: bool)
      modifies this`queue
      ensures ok == open && queue == Sent(old(queue), open, x)
    {
      ok := open;
      if open {
        queue := queue + [x];
      }
    }
  }

  function Sent<T>(queue: seq<T>, open: bool, x: T): seq<T> {
    if open then queue + [x] else queue
  }

  datatype Response = Success(msg: seq<byte>) | Failure(code: nat, message: seq<byte>)

  datatype Request<Req> = Request(id: nat, request: Req)

  const UNAVAILABLE: nat := 14

  /** "dispatch channel is closed" */
  const CHANNEL_CLOSED: seq<byte> := [
    0x64, 0x69, 0x73, 0x70, 0x61, 0x74, 0x63, 0x68, 0x20, 0x63, 0x68, 0x61, 0x6e,
    0x6e, 0x65, 0x6c, 0x20, 0x69, 0x73, 0x20, 0x63, 0x6c, 0x6f, 0x73, 0x65, 0x64]

  const CLOSED: Response := Failure(UNAVAILABLE, CHANNEL_CLOSED)

  function ResponseJob(id: nat, response: Response): Job {
    match response
    case Success(msg) => Reply(id, msg)
    case Failure(code, message) => Status(id, code, message)
  }

  /**
   What a client is to read of an answer: the opening headers, the message and the trailers with status 0;
   or one header list with the status and its text.
  */
  function AnswerEvents(id: nat, response: Response): seq<Writer.Event> {
    match response
    case Success(msg) =>
      [HeaderList(id, OPENING, false), Message(id, msg, false), HeaderList(id, [Header(GRPC_STATUS, [48])], true)]
    case Failure(code, message) =>
      [HeaderList(id, OPENING + [Header(GRPC_STATUS, Decimal(code)), Header(GRPC_MESSAGE, message)], true)]
  }

  lemma JobMeansAnswer(id: nat, response: Response)
    ensures JobEvents(ResponseJob(id, response)) == AnswerEvents(id, response)
  {
    assert Decimal(0) == [48];
  }

  /** send_response, send_response_box */
  method SendResponse(respTx: Channel<Job>, id: nat, response: Response) returns (r: Result<()>)
    modifies respTx`queue
    ensures respTx.queue == Sent(old(respTx.queue), respTx.open, ResponseJob(id, response))
    ensures respTx.open ==>
              respTx.queue != [] && JobEvents(respTx.queue[|respTx.queue| - 1]) == AnswerEvents(id, response)
    ensures r == if respTx.open then Ok(()) else Err(ChannelClosed)
  {
    JobMeansAnswer(id, response);
    var job := match response
      case Success(msg) => Reply(id, msg)
      case Failure(code, message) => Status(id, code, message);
    var ok := respTx.Send(job);
    r := if ok then Ok(()) else Err(ChannelClosed);
  }

  /** A request goes to its shard, or its stream is told that the shard is gone. */
  method DispatchRequest<Req>(reqTx: Channel<Request<Req>>, request: Req, id: nat, respTx: Channel<Job>)
    returns (r: Result<()>)
    requires (reqTx as object) != respTx
    modifies reqTx`queue, respTx`queue
    ensures reqTx.queue == Sent(old(reqTx.queue), reqTx.open, Request(id, request))
    ensures respTx.queue == if reqTx.open then old(respTx.queue)
                            else Sent(old(respTx.queue), respTx.open, ResponseJob(id, CLOSED))
    ensures r == if reqTx.open || respTx.open then Ok(()) else Err(ChannelClosed)
  {
    var ok := reqTx.Send(Request(id, request));
    if ok {
      r := Ok(());
    } else {
      r := SendResponse(respTx, id, CLOSED);
    }
  }

  // ---------------------------------------------------------------- tasks around a connection

  /**
   The tasks around a connection: handlers that run (by stream), requests that wait at the shards,
   all the jobs sent to the writer, and how many of them it has written.
  */
  datatype System = System(
    frames: seq<Frame>,
    core: Core,
    reading: bool,
    running: multiset<nat>,
    queues: seq<seq<nat>>,
    closed: set<nat>,
    jobs: seq<Job>,
    respOpen: bool,
    written: nat)

  datatype Event =
    | Receive(f: Frame)
    | Batch(len: nat, lens: seq<(nat, nat)>)
    | Answer(id: nat, response: Response)
    | GiveUp(id: nat)
    | Hand(id: nat, shard: nat)
    | Serve(shard: nat, at: nat, answer: Option<Response>)
    | CloseShard(shard: nat)
    | WriteNext
    | CloseWriter

  function Start(shards: nat): System {
    System([], FRESH, true, multiset{}, seq(shards, _ => []), {}, [], true, 0)
  }

  function Push(s: System, job: Job): System {
    s.(jobs := Sent(s.jobs, s.respOpen, job))
  }

  function PushAll(s: System, writes: seq<seq<byte>>): System {
    if writes == [] then s else Push(PushAll(s, writes[..|writes| - 1]), Write(writes[|writes| - 1]))
  }

  function IdSeq(calls: seq<Call>): (ids: seq<nat>)
    ensures |ids| == |calls|
  {
    seq(|calls|, i requires 0 <= i < |calls| => calls[i].id)
  }

  /** A frame's calls start handlers, and its replies go to the writer. */
  function Taken(s: System, f: Frame, core: Core): System {
    var started := if |s.core.calls| <= |core.calls| then core.calls[|s.core.calls|..] else [];
    var writes := if |s.core.writes| <= |core.writes| then core.writes[|s.core.writes|..] else [];
    PushAll(s.(frames := s.frames + [f], core := core, running := s.running + multiset(IdSeq(started))), writes)
  }

  /** The read loop takes a frame. */
  function Take(cfg: Config, s: System, f: Frame): System
    requires |cfg.code| == 257
  {
    match FrameStep(cfg, s.core, f)
    case Stop(_) => s.(reading := false)
    case Next(core) => Taken(s, f, core)
  }

  /** dispatch: the request of a handler goes to a shard, or is refused when the shard is gone. */
  function HandOver(s: System, id: nat, shard: nat): System {
    if id !in s.running || shard >= |s.queues| then s
    else
      var s' := s.(running := s.running - multiset{id});
      if shard in s.closed then Push(s', ResponseJob(id, CLOSED))
      else s'.(queues := s.queues[shard := s.queues[shard] + [id]])
  }

  /** A shard answers a request that waits, or drops it. */
  function ServeAt(s: System, shard: nat, at: nat, response: Option<Response>): System {
    if shard >= |s.queues| || at >= |s.queues[shard]| then s
    else
      var q := s.queues[shard];
      var s' := s.(queues := s.queues[shard := q[..at] + q[at + 1..]]);
      if response.Some? then Push(s', ResponseJob(q[at], response.value)) else s'
  }

  /** A step of a handler, a shard or the writer. An event whose task is not there changes nothing. */
  function StepTask(s: System, e: Event): System {
    match e
    case Receive(_) => s
    case Batch(len, lens) => if s.reading then Push(s, WindowUpdates(len, lens)) else s
    case Answer(id, response) =>
      if id in s.running then Push(s.(running := s.running - multiset{id}), ResponseJob(id, response)) else s
    case GiveUp(id) => s.(running := s.running - multiset{id})
    case Hand(id, shard) => HandOver(s, id, shard)
    case Serve(shard, at, response) => ServeAt(s, shard, at, response)
    case CloseShard(shard) =>
      if shard >= |s.queues| then s
      else s.(closed := s.closed + {shard}, queues := s.queues[shard := []])
    case WriteNext => if s.written < |s.jobs| then s.(written := s.written + 1) else s
    case CloseWriter => s.(respOpen := false)
  }

  function Step(cfg: Config, s: System, e: Event): System
    requires |cfg.code| == 257
  {
    if e.Receive? then if s.reading then Take(cfg, s, e.f) else s
    else StepTask(s, e)
  }

  function StepAll(cfg: Config, shards: nat, es: seq<Event>): System
    requires |cfg.code| == 257
  {
    if es == [] then Start(shards) else Step(cfg, StepAll(cfg, shards, es[..|es| - 1]), es[|es| - 1])
  }

  // ---------------------------------------------------------------- one answer for each call

  function AnswerOf(job: Job): multiset<nat> {
    match job
    case Reply(id, _) => multiset{id}
    case Status(id, _, _) => multiset{id}
    case _ => multiset{}
  }

  function Answered(jobs: seq<Job>): multiset<nat> {
    if jobs == [] then multiset{} else Answered(jobs[..|jobs| - 1]) + AnswerOf(jobs[|jobs| - 1])
  }

  function Waiting(queues: seq<seq<nat>>): multiset<nat> {
    if queues == [] then multiset{} else Waiting(queues[..|queues| - 1]) + multiset(queues[|queues| - 1])
  }

  /** The streams that run, wait or are answered: each is a call, and no call is two of these. */
  function Tokens(s: System): multiset<nat> {
    s.running + Waiting(s.queues) + Answered(s.jobs)
  }

  ghost predicate Sane(s: System) {
    && Tokens(s) <= multiset(IdSeq(s.core.calls))
    && (forall i :: 0 <= i < |s.jobs| && s.jobs[i].Write? ==> s.jobs[i].buf in s.core.writes)
    && s.written <= |s.jobs|
  }

  ghost predicate Reached(cfg: Config, s: System)
    requires |cfg.code| == 257
  {
    After(cfg, FRESH, s.frames) == Next(s.core)
  }

  /** A queue changes: what it gains and loses, all the queues gain and lose. */
  lemma {:induction false} WaitingAt(queues: seq<seq<nat>>, i: nat, q: seq<nat>, x: nat)
    requires i < |queues|
    ensures Waiting(queues[i := q])[x] + multiset(queues[i])[x] == Waiting(queues)[x] + multiset(q)[x]
    decreases |queues|
  {
    var n := |queues| - 1;
    var changed := queues[i := q];
    assert Waiting(changed) == Waiting(changed[..n]) + multiset(changed[n]);
    if i < n {
      WaitingAt(queues[..n], i, q, x);
      assert changed[..n] == queues[..n][i := q];
    } else {
      assert changed[..n] == queues[..n];
    }
  }

  lemma QueueGains(queues: seq<seq<nat>>, i: nat, id: nat)
    requires i < |queues|
    ensures Waiting(queues[i := queues[i] + [id]]) == Waiting(queues) + multiset{id}
  {
    forall x {
      WaitingAt(queues, i, queues[i] + [id], x);
    }
  }

  lemma WithoutAt(q: seq<nat>, at: nat, x: nat)
    requires at < |q|
    ensures multiset(q[..at] + q[at + 1..])[x] + multiset{q[at]}[x] == multiset(q)[x]
  {
    assert q == q[..at] + [q[at]] + q[at + 1..];
  }

  lemma QueueLosesAt(queues: seq<seq<nat>>, i: nat, at: nat, x: nat)
    requires i < |queues| && at < |queues[i]|
    ensures Waiting(queues[i := queues[i][..at] + queues[i][at + 1..]])[x] + multiset{queues[i][at]}[x] ==
            Waiting(queues)[x]
  {
    var q := queues[i];
    WithoutAt(q, at, x);
    WaitingAt(queues, i, q[..at] + q[at + 1..], x);
  }

  lemma QueueLoses(queues: seq<seq<nat>>, i: nat, at: nat)
    requires i < |queues| && at < |queues[i]|
    ensures Waiting(queues[i := queues[i][..at] + queues[i][at + 1..]]) + multiset{queues[i][at]} == Waiting(queues)
  {
    forall x {
      QueueLosesAt(queues, i, at, x);
    }
  }

  lemma QueueEmpties(queues: seq<seq<nat>>, i: nat)
    requires i < |queues|
    ensures Waiting(queues[i := []]) <= Waiting(queues)
  {
    forall x {
      WaitingAt(queues, i, [], x);
    }
  }

  lemma PushAnswers(s: System, job: Job)
    ensures Answered(Push(s, job).jobs) <= Answered(s.jobs) + AnswerOf(job)
  {
    assert (s.jobs + [job])[..|s.jobs|] == s.jobs;
  }

  /** A job for the writer that is an answer takes its stream's token. */
  lemma AnswerKeeps(s: System, s': System, id: nat, response: Response)
    requires Sane(s) && s'.core == s.core && s'.jobs == s.jobs && s'.written == s.written
    requires s'.running + Waiting(s'.queues) + multiset{id} <= s.running + Waiting(s.queues)
    ensures Sane(Push(s', ResponseJob(id, response)))
  {
    var job := ResponseJob(id, response);
    PushAnswers(s', job);
    assert AnswerOf(job) == multiset{id};
    assert Tokens(Push(s', job)) <= Tokens(s);
  }

  /** Streams may lose their tokens: they are then never answered. */
  lemma LossKeeps(s: System, s': System)
    requires Sane(s) && s'.core == s.core && s'.jobs == s.jobs && s'.written <= |s.jobs|
    requires s'.running + Waiting(s'.queues) <= s.running + Waiting(s.queues)
    ensures Sane(s')
  {
    assert Tokens(s') <= Tokens(s);
  }

  lemma IdSeqSplit(calls: seq<Call>, n: nat)
    requires n <= |calls|
    ensures multiset(IdSeq(calls)) == multiset(IdSeq(calls[..n])) + multiset(IdSeq(calls[n..]))
  {
    assert IdSeq(calls) == IdSeq(calls[..n]) + IdSeq(calls[n..]);
  }

  /** A frame only adds calls and replies. */
  lemma OutputGrows(cfg: Config, core: Core, f: Frame)
    requires |cfg.code| == 257 && FrameStep(cfg, core, f).Next?
    ensures core.calls <= FrameStep(cfg, core, f).core.calls
    ensures core.writes <= FrameStep(cfg, core, f).core.writes
  {}

  lemma PushWrite(s: System, w: seq<byte>)
    ensures var s' := Push(s, Write(w));
            && s' == s.(jobs := s'.jobs) && s.jobs <= s'.jobs && |s'.jobs| <= |s.jobs| + 1
            && Answered(s'.jobs) == Answered(s.jobs)
            && (|s'.jobs| > |s.jobs| ==> s'.jobs[|s.jobs|] == Write(w))
  {
    assert (s.jobs + [Write(w)])[..|s.jobs|] == s.jobs;
    assert Answered(s.jobs) + AnswerOf(Write(w)) == Answered(s.jobs);
  }

  lemma {:induction false} PushAllKeeps(s: System, writes: seq<seq<byte>>)
    ensures var s' := PushAll(s, writes);
            && s' == s.(jobs := s'.jobs) && s.jobs <= s'.jobs
            && Answered(s'.jobs) == Answered(s.jobs)
            && forall i :: |s.jobs| <= i < |s'.jobs| ==> s'.jobs[i].Write? && s'.jobs[i].buf in writes
    decreases |writes|
  {
    if writes != [] {
      var before, w := writes[..|writes| - 1], writes[|writes| - 1];
      PushAllKeeps(s, before);
      PushWrite(PushAll(s, before), w);
    }
  }

  /** New calls start to run. */
  lemma StartKeeps(s: System, core: Core, running: multiset<nat>)
    requires Sane(s) && s.core.calls <= core.calls && s.core.writes <= core.writes
    requires running == s.running + multiset(IdSeq(core.calls[|s.core.calls|..]))
    ensures Sane(s.(core := core, running := running))
  {
    IdSeqSplit(core.calls, |s.core.calls|);
    assert core.calls[..|s.core.calls|] == s.core.calls;
    assert forall w :: w in s.core.writes ==> w in core.writes;
  }

  /** Replies of the read loop are no answers. */
  lemma RepliesKeep(s: System, writes: seq<seq<byte>>)
    requires Sane(s) && forall w :: w in writes ==> w in s.core.writes
    ensures Sane(PushAll(s, writes))
  {
    PushAllKeeps(s, writes);
  }

  lemma TakenKeeps(s: System, f: Frame, core: Core)
    requires Sane(s) && s.core.calls <= core.calls && s.core.writes <= core.writes
    ensures Sane(Taken(s, f, core))
    ensures Taken(s, f, core).frames == s.frames + [f] && Taken(s, f, core).core == core
  {
    var running := s.running + multiset(IdSeq(core.calls[|s.core.calls|..]));
    StartKeeps(s, core, running);
    var mid := s.(frames := s.frames + [f], core := core, running := running);
    LossKeeps(s.(core := core, running := running), mid);
    var writes := core.writes[|s.core.writes|..];
    assert forall w :: w in writes ==> w in core.writes;
    RepliesKeep(mid, writes);
    PushAllKeeps(mid, writes);
  }

  lemma TakeKeeps(cfg: Config, s: System, f: Frame)
    requires |cfg.code| == 257 && Sane(s) && Reached(cfg, s)
    ensures Sane(Take(cfg, s, f)) && Reached(cfg, Take(cfg, s, f))
  {
    match FrameStep(cfg, s.core, f)
    case Stop(_) =>
    case Next(core) =>
      OutputGrows(cfg, s.core, f);
      TakenKeeps(s, f, core);
      assert (s.frames + [f])[..|s.frames|] == s.frames;
  }

  lemma ServeKeeps(s: System, shard: nat, at: nat, response: Option<Response>)
    requires Sane(s)
    ensures Sane(ServeAt(s, shard, at, response))
  {
    if shard < |s.queues| && at < |s.queues[shard]| {
      var q := s.queues[shard];
      var s' := s.(queues := s.queues[shard := q[..at] + q[at + 1..]]);
      QueueLoses(s.queues, shard, at);
      if response.Some? {
        AnswerKeeps(s, s', q[at], response.value);
      } else {
        LossKeeps(s, s');
      }
    }
  }

  lemma HandKeeps(s: System, id: nat, shard: nat)
    requires Sane(s)
    ensures Sane(HandOver(s, id, shard))
  {
    if id in s.running && shard < |s.queues| {
      var s' := s.(running := s.running - multiset{id});
      if shard in s.closed {
        AnswerKeeps(s, s', id, CLOSED);
      } else {
        QueueGains(s.queues, shard, id);
        LossKeeps(s, s'.(queues := s.queues[shard := s.queues[shard] + [id]]));
      }
    }
  }

  lemma BatchStep(s: System, len: nat, lens: seq<(nat, nat)>)
    requires Sane(s)
    ensures Sane(StepTask(s, Batch(len, lens)))
  {
    var job := WindowUpdates(len, lens);
    PushAnswers(s, job);
    assert Tokens(Push(s, job)) <= Tokens(s);
  }

  lemma TaskReadsNothing(s: System, e: Event)
    ensures StepTask(s, e).frames == s.frames && StepTask(s, e).core == s.core
  {}

  lemma AnswerStep(s: System, id: nat, response: Response)
    requires Sane(s)
    ensures Sane(StepTask(s, Answer(id, response)))
  {
    if id in s.running {
      var running := s.running - multiset{id};
      assert running + multiset{id} == s.running;
      AnswerKeeps(s, s.(running := running), id, response);
    }
  }

  lemma GiveUpStep(s: System, id: nat)
    requires Sane(s)
    ensures Sane(StepTask(s, GiveUp(id)))
  {
    LossKeeps(s, s.(running := s.running - multiset{id}));
  }

  lemma CloseStep(s: System, shard: nat)
    requires Sane(s)
    ensures Sane(StepTask(s, CloseShard(shard)))
  {
    if shard < |s.queues| {
      QueueEmpties(s.queues, shard);
      LossKeeps(s, s.(closed := s.closed + {shard}, queues := s.queues[shard := []]));
    }
  }

  lemma WriterStep(s: System, e: Event)
    requires Sane(s) && (e == WriteNext || e == CloseWriter)
    ensures Sane(StepTask(s, e))
  {
    var s' := StepTask(s, e);
    assert s'.core == s.core && s'.jobs == s.jobs && s'.running == s.running && s'.queues == s.queues;
    LossKeeps(s, s');
  }

  lemma HandStep(s: System, id: nat, shard: nat)
    requires Sane(s)
    ensures Sane(StepTask(s, Hand(id, shard)))
  {
    var s' := StepTask(s, Hand(id, shard));
    assert s' == HandOver(s, id, shard);
    HandKeeps(s, id, shard);
  }

  lemma ServeStep(s: System, shard: nat, at: nat, response: Option<Response>)
    requires Sane(s)
    ensures Sane(StepTask(s, Serve(shard, at, response)))
  {
    var s' := StepTask(s, Serve(shard, at, response));
    assert s' == ServeAt(s, shard, at, response);
    ServeKeeps(s, shard, at, response);
  }

  lemma TaskKeeps(s: System, e: Event)
    requires Sane(s)
    ensures Sane(StepTask(s, e))
  {
    match e
    case Receive(_) =>
    case Batch(len, lens) => BatchStep(s, len, lens);
    case Answer(id, response) => AnswerStep(s, id, response);
    case GiveUp(id) => GiveUpStep(s, id);
    case Hand(id, shard) => HandStep(s, id, shard);
    case Serve(shard, at, response) => ServeStep(s, shard, at, response);
    case CloseShard(shard) => CloseStep(s, shard);
    case WriteNext => WriterStep(s, e);
    case CloseWriter => WriterStep(s, e);
  }

  lemma StepKeeps(cfg: Config, s: System, e: Event)
    requires |cfg.code| == 257 && Sane(s) && Reached(cfg, s)
    ensures Sane(Step(cfg, s, e)) && Reached(cfg, Step(cfg, s, e))
  {
    if e.Receive? {
      TakeKeeps(cfg, s, e.f);
    } else {
      TaskKeeps(s, e);
      TaskReadsNothing(s, e);
    }
  }

  lemma {:induction false} NoneWait(queues: seq<seq<nat>>)
    requires forall i :: 0 <= i < |queues| ==> queues[i] == []
    ensures Waiting(queues) == multiset{}
    decreases |queues|
  {
    if queues != [] {
      NoneWait(queues[..|queues| - 1]);
    }
  }

  lemma {:induction false} RunIsSane(cfg: Config, shards: nat, es: seq<Event>)
    requires |cfg.code| == 257
    ensures Sane(StepAll(cfg, shards, es)) && Reached(cfg, StepAll(cfg, shards, es))
    decreases |es|
  {
    if es == [] {
      NoneWait(Start(shards).queues);
    } else {
      RunIsSane(cfg, shards, es[..|es| - 1]);
      StepKeeps(cfg, StepAll(cfg, shards, es[..|es| - 1]), es[|es| - 1]);
    }
  }

  // ---------------------------------------------------------------- on the wire

  /** HEADERS and DATA, the frames that make up an answer. */
  predicate Speaks(f: Frame) {
    f.kind == Headers || f.kind == FrameKind.Data
  }

  /** After END_STREAM nothing is said on a stream, so END_STREAM is said once. */
  ghost predicate EndsOnce(fs: seq<Frame>) {
    forall a, b :: 0 <= a < b < |fs| && Speaks(fs[a]) && Speaks(fs[b]) && fs[a].id == fs[b].id ==>
      !IsEndStream(fs[a].flags)
  }

  /** No stream is answered twice, and other octets for the writer are no answers. */
  ghost predicate AnswersOnce(jobs: seq<Job>) {
    && (forall i, j :: 0 <= i < j < |jobs| ==> AnswerOf(jobs[i]) !! AnswerOf(jobs[j]))
    && (forall i :: 0 <= i < |jobs| && jobs[i].Write? ==> forall f :: f in ParseFrames(jobs[i].buf).0 ==> !Speaks(f))
  }

  lemma JobSpeaks(r: Ranks, job: Job)
    requires Consistent(r)
    requires job.Write? ==> forall f :: f in ParseFrames(job.buf).0 ==> !Speaks(f)
    ensures EndsOnce(JobFrames(r, job))
    ensures forall f :: f in JobFrames(r, job) && Speaks(f) ==> f.id in AnswerOf(job)
  {
    match job
    case WindowUpdates(_, lens) => CreditsAreSilent(lens);
    case _ =>
  }

  lemma {:induction false} CreditsAreSilent(lens: seq<(nat, nat)>)
    ensures forall f :: f in CreditFrames(lens) ==> f.kind == WindowUpdate
    decreases |lens|
  {
    if lens != [] {
      CreditsAreSilent(lens[1..]);
    }
  }

  ghost predicate Answers(jobs: seq<Job>, id: nat) {
    exists i :: 0 <= i < |jobs| && id in AnswerOf(jobs[i])
  }

  lemma LaterAnswers(jobs: seq<Job>, id: nat)
    requires jobs != [] && AnswersOnce(jobs) && Answers(jobs[1..], id)
    ensures Answers(jobs, id) && id !in AnswerOf(jobs[0])
  {
    var i :| 0 <= i < |jobs[1..]| && id in AnswerOf(jobs[1..][i]);
    assert jobs[i + 1] == jobs[1..][i];
  }

  lemma {:induction false} FramesEndOnce(r: Ranks, jobs: seq<Job>)
    requires Consistent(r) && AnswersOnce(jobs)
    ensures EndsOnce(WriterFrames(r, jobs))
    ensures forall f :: f in WriterFrames(r, jobs) && Speaks(f) ==> Answers(jobs, f.id)
    decreases |jobs|
  {
    if jobs != [] {
      var first, rest := JobFrames(r, jobs[0]), WriterFrames(AfterJob(r, jobs[0]), jobs[1..]);
      JobSpeaks(r, jobs[0]);
      FramesEndOnce(AfterJob(r, jobs[0]), jobs[1..]);
      JoinFrames(jobs, first, rest);
    }
  }

  lemma JoinFrames(jobs: seq<Job>, first: seq<Frame>, rest: seq<Frame>)
    requires jobs != [] && AnswersOnce(jobs) && EndsOnce(first) && EndsOnce(rest)
    requires forall f :: f in first && Speaks(f) ==> f.id in AnswerOf(jobs[0])
    requires forall f :: f in rest && Speaks(f) ==> Answers(jobs[1..], f.id)
    ensures EndsOnce(first + rest)
    ensures forall f :: f in first + rest && Speaks(f) ==> Answers(jobs, f.id)
  {
    forall f | f in rest && Speaks(f) ensures Answers(jobs, f.id) && f.id !in AnswerOf(jobs[0]) {
      LaterAnswers(jobs, f.id);
    }
    JoinEndsOnce(first, rest, AnswerOf(jobs[0]));
  }

  lemma JoinEndsOnce(first: seq<Frame>, rest: seq<Frame>, own: multiset<nat>)
    requires EndsOnce(first) && EndsOnce(rest)
    requires forall f :: f in first && Speaks(f) ==> f.id in own
    requires forall f :: f in rest && Speaks(f) ==> f.id !in own
    ensures EndsOnce(first + rest)
  {
    var all := first + rest;
    forall a, b | 0 <= a < |first| <= b < |all| && Speaks(all[a]) && Speaks(all[b]) ensures all[a].id != all[b].id {
      assert first[a] in first && rest[b - |first|] in rest;
    }
    forall a, b | 0 <= a < b < |all| && Speaks(all[a]) && Speaks(all[b]) && all[a].id == all[b].id
      ensures !IsEndStream(all[a].flags)
    {
      if b < |first| {
        assert all[a] == first[a] && all[b] == first[b];
      } else {
        assert all[a] == rest[a - |first|] && all[b] == rest[b - |first|];
      }
    }
  }

  // ---------------------------------------------------------------- replies of the read loop

  lemma OneFrameBytes(f: Frame)
    requires |f.payload| < U24
    ensures var fs := ParseFrames(FrameBytes(f)).0;
            |fs| == 1 && fs[0].kind == f.kind
  {
    var head := HeadBytes(|f.payload|, f.kind, f.flags, f.id);
    HeadReadsBack(|f.payload|, f.kind, f.flags, f.id);
    ParseAfterHead(head, f.payload, []);
    assert head + (f.payload + []) == FrameBytes(f);
    var f' := ParseFrame(FrameBytes(f)).value;
    assert ParseFrames(FrameBytes(f)[FrameSize(f')..]).0 == [];
  }

  /** The octets of a frame that is no answer. */
  lemma OneIsSilent(f: Frame)
    requires |f.payload| < U24 && f.kind != Data && f.kind != Headers
    ensures forall g :: g in ParseFrames(FrameBytes(f)).0 ==> !Speaks(g)
  {
    OneFrameBytes(f);
  }

  /** Acknowledgements and refusals are no answers. */
  lemma ControlIsSilent(w: seq<byte>, l: Ledger)
    requires IsControlReply(w, l)
    ensures forall f :: f in ParseFrames(w).0 ==> !Speaks(f)
  {
    if w == SettingsAckBytes() {
      OneIsSilent(Frame(Settings, ACK, 0, []));
    } else if exists payload :: |payload| == 8 && w == PingAckBytes(payload) {
      var payload :| |payload| == 8 && w == PingAckBytes(payload);
      OneIsSilent(Frame(Ping, ACK, 0, payload));
    } else {
      var id :| At(l, id) == Some(Refused) && w == RstBytes(id);
      OneIsSilent(Frame(Reset, 0, id, BeBytes(7)));
    }
  }

  // ---------------------------------------------------------------- no stream is answered twice

  /** How often a stream is answered by one job more. */
  lemma AnsweredSnoc(before: seq<Job>, job: Job, id: nat)
    ensures Answered(before + [job])[id] == Answered(before)[id] + AnswerOf(job)[id]
  {
    assert (before + [job])[..|before|] == before;
  }

  lemma {:induction false} AnsweredOne(jobs: seq<Job>, i: nat, id: nat)
    requires i < |jobs|
    ensures AnswerOf(jobs[i])[id] <= Answered(jobs)[id]
    decreases |jobs|
  {
    var n := |jobs| - 1;
    if i < n {
      AnsweredOne(jobs[..n], i, id);
    }
  }

  lemma TwoSnoc(before: seq<Job>, job: Job, i: nat, id: nat)
    requires i < |before|
    ensures AnswerOf(before[i])[id] + AnswerOf(job)[id] <= Answered(before + [job])[id]
  {
    AnsweredOne(before, i, id);
    AnsweredSnoc(before, job, id);
  }

  lemma MoreSnoc(n: nat, before: seq<Job>, job: Job, id: nat)
    requires n <= Answered(before)[id]
    ensures n <= Answered(before + [job])[id]
  {
    AnsweredSnoc(before, job, id);
  }

  lemma {:induction false} AnsweredTwo(jobs: seq<Job>, i: nat, j: nat, id: nat)
    requires i < j < |jobs|
    ensures AnswerOf(jobs[i])[id] + AnswerOf(jobs[j])[id] <= Answered(jobs)[id]
    decreases |jobs|
  {
    var before, last := jobs[..|jobs| - 1], jobs[|jobs| - 1];
    assert before + [last] == jobs;
    if j < |before| {
      AnsweredTwo(before, i, j, id);
      MoreSnoc(AnswerOf(jobs[i])[id] + AnswerOf(jobs[j])[id], before, last, id);
    } else {
      TwoSnoc(before, last, i, id);
    }
  }

  lemma {:induction false} CountOnce(ids: seq<nat>, x: nat)
    requires Distinct(ids)
    ensures multiset(ids)[x] <= 1
    decreases |ids|
  {
    if ids != [] {
      var n := |ids| - 1;
      CountOnce(ids[..n], x);
      assert ids == ids[..n] + [ids[n]];
      assert x == ids[n] ==> x !in ids[..n];
    }
  }

  lemma TwoAnswersDiffer(jobs: seq<Job>, ids: seq<nat>, i: nat, j: nat)
    requires i < j < |jobs| && Distinct(ids) && Answered(jobs) <= multiset(ids)
    ensures AnswerOf(jobs[i]) !! AnswerOf(jobs[j])
  {
    forall x ensures !(x in AnswerOf(jobs[i]) && x in AnswerOf(jobs[j])) {
      AnsweredTwo(jobs, i, j, x);
      CountOnce(ids, x);
    }
  }

  lemma AnswerIsCall(jobs: seq<Job>, calls: seq<Call>, id: nat)
    requires Answered(jobs) <= multiset(IdSeq(calls)) && Answers(jobs, id)
    ensures id in CallIds(calls)
  {
    var i :| 0 <= i < |jobs| && id in AnswerOf(jobs[i]);
    AnsweredOne(jobs, i, id);
    assert id in IdSeq(calls);
    var k :| 0 <= k < |calls| && IdSeq(calls)[k] == id;
    assert calls[k].id == id;
  }

  /** A stream that is answered is one of the calls, which are distinct. */
  lemma JobsAnswerOnce(cfg: Config, s: System)
    requires |cfg.code| == 257 && Sane(s) && Reached(cfg, s)
    ensures AnswersOnce(s.jobs)
  {
    StreamsSplit(cfg, s.frames);
    RefusalsAreSent(cfg, s.frames);
    SaneAnswersOnce(s, RecordAll(cfg.maxStreams, s.frames));
  }

  lemma SaneAnswersOnce(s: System, l: Ledger)
    requires Sane(s) && RepliesFit(l) && s.core.writes == l.replies
    requires forall i, j :: 0 <= i < j < |s.core.calls| ==> s.core.calls[i].id != s.core.calls[j].id
    ensures AnswersOnce(s.jobs)
  {
    forall i, j | 0 <= i < j < |s.jobs| ensures AnswerOf(s.jobs[i]) !! AnswerOf(s.jobs[j]) {
      TwoAnswersDiffer(s.jobs, IdSeq(s.core.calls), i, j);
    }
    forall i | 0 <= i < |s.jobs| && s.jobs[i].Write?
      ensures forall f :: f in ParseFrames(s.jobs[i].buf).0 ==> !Speaks(f)
    {
      ControlIsSilent(s.jobs[i].buf, l);
    }
  }

  lemma SomeJobs(jobs: seq<Job>, n: nat)
    requires AnswersOnce(jobs) && n <= |jobs|
    ensures AnswersOnce(jobs[..n])
    ensures forall id :: Answers(jobs[..n], id) ==> Answers(jobs, id)
  {}

  /**
   In every interleaving of the read loop, handlers, shards and the writer, what is written says
   nothing on a stream after its END_STREAM, and answers only streams that were dispatched: none
   that was refused, reset or never opened.
  */
  lemma StreamsEndOnce(cfg: Config, shards: nat, es: seq<Event>)
    requires |cfg.code| == 257
    ensures var s := StepAll(cfg, shards, es);
            && s.written <= |s.jobs|
            && var fs := WriterFrames(NO_RANKS, s.jobs[..s.written]);
               && EndsOnce(fs)
               && forall f :: f in fs && Speaks(f) ==>
                    f.id in DispatchedIds(RecordAll(cfg.maxStreams, s.frames))
  {
    RunIsSane(cfg, shards, es);
    var s := StepAll(cfg, shards, es);
    var jobs := s.jobs[..s.written];
    JobsAnswerOnce(cfg, s);
    SomeJobs(s.jobs, s.written);
    FramesEndOnce(NO_RANKS, jobs);
    RunAgrees(cfg, s.frames);
    CallIdsAreDispatched(cfg, s.core, RecordAll(cfg.maxStreams, s.frames));
    forall f | f in WriterFrames(NO_RANKS, jobs) && Speaks(f) ensures f.id in CallIds(s.core.calls) {
      AnswerIsCall(s.jobs, s.core.calls, f.id);
    }
  }

  /** The same of the octets written, when HTTP/2 has room for the jobs. */
  lemma OctetsEndOnce(cfg: Config, shards: nat, es: seq<Event>)
    requires |cfg.code| == 257
    requires var s := StepAll(cfg, shards, es);
             s.written <= |s.jobs| && JobsFit(NO_RANKS, s.jobs[..s.written])
    ensures var s := StepAll(cfg, shards, es);
            var (fs, rest) := ParseFrames(WriterBytes(NO_RANKS, s.jobs[..s.written]));
            && rest == [] && EndsOnce(fs)
            && forall f :: f in fs && Speaks(f) ==> f.id in DispatchedIds(RecordAll(cfg.maxStreams, s.frames))
  {
    var s := StepAll(cfg, shards, es);
    StreamsEndOnce(cfg, shards, es);
    WriterReadsBack(s.jobs[..s.written]);
  }
}
