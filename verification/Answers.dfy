/**
 An answer from the handler or shard that gives it to the client that reads it (pajamax/src/dispatch.rs,
 pajamax/src/response_end.rs).
*/
module Answers {
  import opened Wrappers
  import opened Bits
  import opened Http2
  import opened HpackReference
  import opened HpackEncoder
  import opened Frames
  import opened Writer
  import opened Dispatch
  import Credit

  /** What a client reads of the octets of these jobs, and that it can read them all. */
  ghost predicate ReadsAs(std: Standard, jobs: seq<Job>, es: seq<Writer.Event>)
    requires |std.huffman| == 257 && |std.statics| == STATIC_LEN
  {
    var (fs, rest) := ParseFrames(WriterBytes(NO_RANKS, jobs));
    && rest == []
    && ReadFrames(std, EMPTY, fs).Some? && ReadFrames(std, EMPTY, fs).value.1 == es
  }

  lemma {:induction false} FirstFit(r: Ranks, jobs: seq<Job>, job: Job)
    requires Consistent(r) && JobsFit(r, jobs + [job])
    ensures JobsFit(r, jobs)
    decreases |jobs|
  {
    if jobs != [] {
      assert (jobs + [job])[0] == jobs[0] && (jobs + [job])[1..] == jobs[1..] + [job];
      FirstFit(AfterJob(r, jobs[0]), jobs[1..], job);
    }
  }

  lemma OneMoreIsRead(std: Standard, jobs: seq<Job>, job: Job) returns (before: seq<Writer.Event>)
    requires Client(std) && JobsFit(NO_RANKS, jobs + [job])
    ensures ReadsAs(std, jobs, before) && ReadsAs(std, jobs + [job], before + JobEvents(job))
  {
    FirstFit(NO_RANKS, jobs, job);
    var p := ClientReadsJobs(std, jobs);
    var p' := ClientReadsJobs(std, jobs + [job]);
    Credit.EventsSnoc(jobs, job);
    before := JobsEvents(jobs);
  }

  /** The answer in place of a shard that is gone. */
  const NO_SHARD: Response := Response.Failure(14, Ascii("dispatch channel is closed"))

  /**
   An event by which a stream gets its answer: from its handler, from a shard where its request waits, or
   because its shard is gone.
  */
  ghost predicate IsAnswer(s: System, e: Dispatch.Event, id: nat, response: Response) {
    match e
    case Answer(i, r) => i == id && r == response && id in s.running
    case Serve(shard, at, r) =>
      shard < |s.queues| && at < |s.queues[shard]| && s.queues[shard][at] == id && r == Some(response)
    case Hand(i, shard) =>
      i == id && id in s.running && shard < |s.queues| && shard in s.closed && response == NO_SHARD
    case _ => false
  }

  lemma ClosedText()
    ensures CLOSED == NO_SHARD
  {
    var text := "dispatch channel is closed";
    assert CHANNEL_CLOSED == Ascii(text);
  }

  lemma AnswerIsPushed(s: System, e: Dispatch.Event, id: nat, response: Response)
    requires IsAnswer(s, e, id, response)
    ensures StepTask(s, e).jobs == if s.respOpen then s.jobs + [ResponseJob(id, response)] else s.jobs
  {
    ClosedText();
  }

  /**
   Whatever came before: an answer adds to what the client reads exactly the events of that answer, on its
   own stream, if the writer is there; and nothing if it is gone.
  */
  lemma AnswerIsRead(std: Standard, cfg: Config, shards: nat, es: seq<Dispatch.Event>, e: Dispatch.Event, id: nat,
          response: Response) returns (before: seq<Writer.Event>)
    requires Client(std) && |cfg.code| == 257 && IsAnswer(Dispatch.StepAll(cfg, shards, es), e, id, response)
    requires JobsFit(NO_RANKS, Dispatch.StepAll(cfg, shards, es + [e]).jobs)
    ensures var s, s' := Dispatch.StepAll(cfg, shards, es), Dispatch.StepAll(cfg, shards, es + [e]);
            && ReadsAs(std, s.jobs, before)
            && ReadsAs(std, s'.jobs, before + if s.respOpen then AnswerEvents(id, response) else [])
  {
    assert (es + [e])[..|es|] == es;
    var s := Dispatch.StepAll(cfg, shards, es);
    AnswerIsPushed(s, e, id, response);
    if s.respOpen {
      JobMeansAnswer(id, response);
      before := OneMoreIsRead(std, s.jobs, ResponseJob(id, response));
    } else {
      var p := ClientReadsJobs(std, s.jobs);
      before := JobsEvents(s.jobs);
      assert before + [] == before;
    }
  }
}
