/**
 Flow control over a whole connection: the window updates a client reads against the DATA octets it
 sent (pajamax/src/connection.rs, pajamax/src/response_end.rs).
*/
module Credit {
  import opened Wrappers
  import opened Bits
  import opened Http2
  import opened Frames
  import opened Runs
  import opened Writer
  import opened Accounts
  import opened Connection
  import opened HpackEncoder
  import opened HpackReference
  import opened Ledger

  /** The credit that a stream (0: the connection) gets from a client's events. */
  function CreditOn(es: seq<Event>, id: nat): nat {
    if es == [] then 0
    else CreditOn(es[..|es| - 1], id) + (if es[|es| - 1].Credit? && es[|es| - 1].id == id then es[|es| - 1].n else 0)
  }

  lemma {:induction false} CreditAppend(a: seq<Event>, b: seq<Event>, id: nat)
    ensures CreditOn(a + b, id) == CreditOn(a, id) + CreditOn(b, id)
    decreases |b|
  {
    if b == [] {
      assert a + b == a;
    } else {
      assert (a + b)[..|a + b| - 1] == a + b[..|b| - 1];
      CreditAppend(a, b[..|b| - 1], id);
    }
  }

  lemma CreditOne(e: Event, id: nat)
    ensures CreditOn([e], id) == if e.Credit? && e.id == id then e.n else 0
  {
    assert [e][..0] == [];
  }

  lemma {:induction false} CreditsSnoc(lens: seq<(nat, nat)>, x: (nat, nat))
    ensures Credits(lens + [x]) == Credits(lens) + [Event.Credit(x.0, x.1)]
    decreases |lens|
  {
    if lens == [] {
      assert (lens + [x])[1..] == [];
    } else {
      assert (lens + [x])[1..] == lens[1..] + [x];
      CreditsSnoc(lens[1..], x);
    }
  }

  /** A batch gives every stream its part. */
  lemma {:induction false} CreditOfBatch(lens: seq<(nat, nat)>, id: nat)
    ensures CreditOn(Credits(lens), id) == SumFor(lens, id)
    decreases |lens|
  {
    if lens != [] {
      var n := |lens| - 1;
      CreditOfBatch(lens[..n], id);
      CreditsSnoc(lens[..n], lens[n]);
      assert lens == lens[..n] + [lens[n]];
      CreditAppend(Credits(lens[..n]), [Event.Credit(lens[n].0, lens[n].1)], id);
      CreditOne(Event.Credit(lens[n].0, lens[n].1), id);
    }
  }

  lemma {:induction false} ControlsGiveNone(fs: seq<Frame>, id: nat)
    ensures CreditOn(Controls(fs), id) == 0
    decreases |fs|
  {
    if fs != [] {
      CreditAppend([Control(fs[0])], Controls(fs[1..]), id);
      CreditOne(Control(fs[0]), id);
      ControlsGiveNone(fs[1..], id);
    }
  }

  lemma {:induction false} EventsSnoc(jobs: seq<Job>, job: Job)
    ensures JobsEvents(jobs + [job]) == JobsEvents(jobs) + JobEvents(job)
    decreases |jobs|
  {
    if jobs == [] {
      assert (jobs + [job])[1..] == [];
      assert JobEvents(job) + [] == JobEvents(job);
    } else {
      assert (jobs + [job])[1..] == jobs[1..] + [job];
      EventsSnoc(jobs[1..], job);
      AppendAssoc(JobEvents(jobs[0]), JobsEvents(jobs[1..]), JobEvents(job));
    }
  }

  /** In every batch, the increments of the streams add up to that of the connection. */
  ghost predicate Balanced(jobs: seq<Job>) {
    forall i :: 0 <= i < |jobs| && jobs[i].WindowUpdates? ==> jobs[i].len == Sum(jobs[i].lens)
  }

  /** What one job gives a stream. */
  function Given(job: Job, id: nat): nat {
    CreditFor(job, id) + (if id == 0 && job.WindowUpdates? then job.len else 0)
  }

  lemma CreditOfJob(job: Job, id: nat)
    requires job.WindowUpdates? ==> job.len == Sum(job.lens)
    ensures CreditOn(JobEvents(job), id) == Given(job, id)
  {
    match job
    case Reply(sid, msg) =>
      var es := JobEvents(job);
      CreditOne(es[0], id);
      CreditOne(es[1], id);
      CreditOne(es[2], id);
      CreditAppend([es[0]], [es[1]], id);
      CreditAppend([es[0]] + [es[1]], [es[2]], id);
      assert es == [es[0]] + [es[1]] + [es[2]];
    case Status(sid, code, message) =>
      CreditOne(JobEvents(job)[0], id);
    case WindowUpdates(len, lens) =>
      if len > 0 {
        CreditAppend([Event.Credit(0, len)], Credits(lens), id);
        CreditOne(Event.Credit(0, len), id);
        CreditOfBatch(lens, id);
      } else {
        SumForBound(lens, id);
      }
    case Write(buf) =>
      ControlsGiveNone(ParseFrames(buf).0, id);
  }

  lemma {:induction false} CreditOfJobs(jobs: seq<Job>, id: nat)
    requires Balanced(jobs)
    ensures CreditOn(JobsEvents(jobs), id) == SentFor(jobs, id) + (if id == 0 then SentCredit(jobs) else 0)
    decreases |jobs|
  {
    if jobs != [] {
      var n := |jobs| - 1;
      CreditOfJobs(jobs[..n], id);
      EventsSnoc(jobs[..n], jobs[n]);
      assert jobs == jobs[..n] + [jobs[n]];
      CreditAppend(JobsEvents(jobs[..n]), JobEvents(jobs[n]), id);
      CreditOfJob(jobs[n], id);
    }
  }

  // ---------------------------------------------------------------- answers in between

  /** The jobs of the read loop among all that reach the writer. */
  function OwnJobs(jobs: seq<Job>): seq<Job> {
    if jobs == [] then []
    else
      var last := jobs[|jobs| - 1];
      OwnJobs(jobs[..|jobs| - 1]) + (if last.Reply? || last.Status? then [] else [last])
  }

  lemma OwnSnoc(own: seq<Job>, last: Job, id: nat, credit: seq<(nat, nat)>, limit: nat)
    requires AllOwn(own + [last], credit, limit)
    ensures AllOwn(own, credit, limit) && IsOwn(last, credit, limit)
    ensures SentFor(own + [last], id) == SentFor(own, id) + CreditFor(last, id)
    ensures SentCredit(own + [last]) ==
            SentCredit(own) + (match last case WindowUpdates(len, _) => len case _ => 0)
  {
    var all := own + [last];
    assert all[..|own|] == own;
    assert IsOwn(all[|own|], credit, limit);
    assert forall i :: 0 <= i < |own| ==> own[i] == all[i];
  }

  /** Answers neither give credit nor take it. */
  lemma {:induction false} AnswersGiveNone(jobs: seq<Job>, id: nat, credit: seq<(nat, nat)>, limit: nat)
    requires AllOwn(OwnJobs(jobs), credit, limit)
    ensures SentFor(jobs, id) == SentFor(OwnJobs(jobs), id) && SentCredit(jobs) == SentCredit(OwnJobs(jobs))
    ensures Balanced(jobs)
    decreases |jobs|
  {
    if jobs != [] {
      var before, last := jobs[..|jobs| - 1], jobs[|jobs| - 1];
      var own := OwnJobs(before);
      if last.Reply? || last.Status? {
        assert own + [] == own;
        AnswersGiveNone(before, id, credit, limit);
      } else {
        OwnSnoc(own, last, id, credit, limit);
        AnswersGiveNone(before, id, credit, limit);
      }
    }
  }

  /** The answers among the jobs are short enough for their frames. */
  ghost predicate AnswersFit(r: Ranks, jobs: seq<Job>)
    requires Consistent(r)
    decreases |jobs|
  {
    jobs != [] ==>
      && (jobs[0].Reply? || jobs[0].Status? ==> JobFits(r, jobs[0]))
      && AnswersFit(AfterJob(r, jobs[0]), jobs[1..])
  }

  lemma {:induction false} ElementBound(lens: seq<(nat, nat)>, i: nat)
    requires i < |lens|
    ensures lens[i].1 <= Sum(lens)
    decreases |lens|
  {
    if i < |lens| - 1 {
      ElementBound(lens[..|lens| - 1], i);
    }
  }

  lemma {:induction false} CreditFramesFit(lens: seq<(nat, nat)>)
    requires forall x :: x in lens ==> x.0 < U31
    ensures forall f :: f in CreditFrames(lens) ==> Sound(f)
    decreases |lens|
  {
    if lens != [] {
      CreditFramesFit(lens[1..]);
    }
  }

  /** A batch of the read loop fits, when reads are shorter than 2^31 - 2^24 octets. */
  lemma BatchFits(r: Ranks, job: Job, credit: seq<(nat, nat)>, limit: nat)
    requires Consistent(r) && job.WindowUpdates? && IsOwn(job, credit, limit) && limit <= U31
    requires forall x :: x in credit ==> x.0 < U31
    ensures JobFits(r, job)
  {
    forall i | 0 <= i < |job.lens| ensures job.lens[i].1 < U31 {
      ElementBound(job.lens, i);
    }
    CreditFramesFit(job.lens);
    var fs := JobFrames(r, job);
    forall i | 0 <= i < |fs| ensures Sound(fs[i]) {
      if i > 0 {
        assert fs[i] == CreditFrames(job.lens)[i - 1];
        assert fs[i] in CreditFrames(job.lens);
      }
    }
  }

  lemma OneFrameFits(r: Ranks, f: Frame)
    requires Consistent(r) && Sound(f) && IsControl(f)
    ensures JobFits(r, Write(FrameBytes(f)))
  {
    OneReadsBack(f);
    OneFrame(f);
  }

  /** Control replies of the read loop fit. */
  lemma ReplyFits(r: Ranks, w: seq<byte>, l: Ledger)
    requires Consistent(r) && IsControlReply(w, l) && forall id :: id in l.stages ==> id < U31
    ensures JobFits(r, Write(w))
  {
    if w == SettingsAckBytes() {
      OneFrameFits(r, Frame(Settings, ACK, 0, []));
    } else if exists payload :: |payload| == 8 && w == PingAckBytes(payload) {
      var payload :| |payload| == 8 && w == PingAckBytes(payload);
      OneFrameFits(r, Frame(Ping, ACK, 0, payload));
    } else {
      var id :| At(l, id) == Some(Refused) && w == RstBytes(id);
      OneFrameFits(r, Frame(Reset, 0, id, BeBytes(7)));
    }
  }

  /** All the jobs of the read loop fit, whatever the ranks of the encoder. */
  ghost predicate OwnFit(jobs: seq<Job>) {
    forall i, r :: 0 <= i < |jobs| && Consistent(r) && !jobs[i].Reply? && !jobs[i].Status? ==> JobFits(r, jobs[i])
  }

  lemma {:induction false} MixedFit(r: Ranks, jobs: seq<Job>)
    requires Consistent(r) && AnswersFit(r, jobs) && OwnFit(jobs)
    ensures JobsFit(r, jobs)
    decreases |jobs|
  {
    if jobs != [] {
      assert OwnFit(jobs[1..]) by {
        assert forall i :: 0 <= i < |jobs[1..]| ==> jobs[1..][i] == jobs[i + 1];
      }
      MixedFit(AfterJob(r, jobs[0]), jobs[1..]);
    }
  }

  lemma {:induction false} OwnAmong(jobs: seq<Job>, i: nat)
    requires i < |jobs| && !jobs[i].Reply? && !jobs[i].Status?
    ensures jobs[i] in OwnJobs(jobs)
    decreases |jobs|
  {
    if i < |jobs| - 1 {
      OwnAmong(jobs[..|jobs| - 1], i);
    }
  }

  lemma {:induction false} WritesHas(jobs: seq<Job>, buf: seq<byte>)
    requires Write(buf) in jobs
    ensures buf in Writes(jobs)
    decreases |jobs|
  {
    var before := jobs[..|jobs| - 1];
    if jobs[|jobs| - 1] != Write(buf) {
      WritesHas(before, buf);
    }
  }

  lemma {:induction false} DataIds(fs: seq<Frame>)
    requires forall i :: 0 <= i < |fs| ==> fs[i].id < U31
    ensures forall x :: x in DataLens(fs) ==> x.0 < U31
    decreases |fs|
  {
    if fs != [] {
      DataIds(fs[..|fs| - 1]);
    }
  }

  // ---------------------------------------------------------------- the whole way

  /** Octets of DATA on stream 0. */
  function ZeroOctets(f: Frame): nat {
    if f.kind == FrameKind.Data && f.id == 0 then |f.payload| else 0
  }

  lemma OneOnZero(before: seq<Frame>, f: Frame)
    ensures SumFor(DataLens(before + [f]), 0) == SumFor(DataLens(before), 0) + ZeroOctets(f)
  {
    assert (before + [f])[..|before|] == before;
    if f.kind == FrameKind.Data {
      OneCount(DataLens(before), (f.id, |f.payload|), 0);
    }
  }

  lemma {:induction false} NoneOnZero(fs: seq<Frame>)
    ensures SumFor(DataLens(fs), 0) == 0 <==> forall i :: 0 <= i < |fs| ==> ZeroOctets(fs[i]) == 0
    decreases |fs|
  {
    if fs != [] {
      var n := |fs| - 1;
      var before, last := fs[..n], fs[n];
      assert before + [last] == fs;
      OneOnZero(before, last);
      NoneOnZero(before);
      assert forall i :: 0 <= i < n ==> fs[i] == before[i];
    }
  }

  /** The jobs that HandleConnection leaves are such that HTTP/2 has room for them. */
  lemma ServedFit(cfg: Config, fs: seq<Frame>, core: Core, own: seq<Job>, limit: nat, jobs: seq<Job>)
    requires |cfg.code| == 257 && Served(cfg, fs, core, own, limit) && limit <= U31 && OwnJobs(jobs) == own
    ensures OwnFit(jobs)
  {
    DataIsCharged(cfg, fs);
    DataIds(fs);
    RefusalsAreSent(cfg, fs);
    NoneIsLost(cfg, fs);
    var l := RecordAll(cfg.maxStreams, fs);
    forall i, r | 0 <= i < |jobs| && Consistent(r) && !jobs[i].Reply? && !jobs[i].Status? ensures JobFits(r, jobs[i]) {
      OwnAmong(jobs, i);
      var k :| 0 <= k < |own| && own[k] == jobs[i];
      assert IsOwn(own[k], core.credit, limit);
      OneFits(r, own, own[k], core, limit, l);
    }
  }

  lemma OneFits(r: Ranks, own: seq<Job>, job: Job, core: Core, limit: nat, l: Ledger)
    requires Consistent(r) && job in own && IsOwn(job, core.credit, limit) && limit <= U31
    requires Writes(own) == core.writes == l.replies && RepliesFit(l)
    requires forall id :: id in l.stages ==> id < U31
    requires forall x :: x in core.credit ==> x.0 < U31
    ensures JobFits(r, job)
  {
    match job
    case WindowUpdates(_, _) => BatchFits(r, job, core.credit, limit);
    case Write(buf) =>
      WritesHas(own, buf);
      var i :| 0 <= i < |l.replies| && l.replies[i] == buf;
      ReplyFits(r, buf, l);
  }

  /**
   Between two reads, the window updates among the jobs give every stream back what its DATA frames
   carried, padding and unknown streams included, whatever answers come between; and they give the
   connection all of it exactly when the client sent no octets of DATA on stream 0: those count twice.
  */
  lemma CreditIsConserved(cfg: Config, fs: seq<Frame>, core: Core, own: seq<Job>, limit: nat, jobs: seq<Job>, id: nat)
    requires |cfg.code| == 257 && Served(cfg, fs, core, own, limit) && OwnJobs(jobs) == own
    ensures id != 0 ==> CreditOn(JobsEvents(jobs), id) == SumFor(DataLens(fs), id)
    ensures CreditOn(JobsEvents(jobs), 0) == Sum(DataLens(fs)) + SumFor(DataLens(fs), 0)
    ensures CreditOn(JobsEvents(jobs), 0) == Sum(DataLens(fs)) <==>
            forall i :: 0 <= i < |fs| && fs[i].kind == FrameKind.Data && fs[i].id == 0 ==> fs[i].payload == []
  {
    DataIsCharged(cfg, fs);
    AnswersGiveNone(jobs, id, core.credit, limit);
    AnswersGiveNone(jobs, 0, core.credit, limit);
    CreditOfJobs(jobs, id);
    CreditOfJobs(jobs, 0);
    NoneOnZero(fs);
  }

  /**
   So it is at every turn of the loop inside a read, `own` and the batch being what the loop has sent and
   owes: what is given, the batch, and the part of a DATA frame make up the DATA octets so far.
  */
  lemma CreditAtEveryTurn(cfg: Config, octets: seq<byte>, core: Core, part: seq<byte>, own: seq<Job>, limit: nat,
          len: nat, lens: seq<(nat, nat)>, jobs: seq<Job>, id: nat)
    requires |cfg.code| == 257 && RunBytes(cfg, FRESH, octets) == Running(core, part)
    requires Balances(core.credit, own, limit, len, lens) && OwnJobs(jobs) == own
    ensures id != 0 ==>
              CreditOn(JobsEvents(jobs), id) + SumFor(lens, id) + SumFor(PartCount(part), id) ==
              SumFor(DataCounts(octets), id)
    ensures CreditOn(JobsEvents(jobs), 0) + len + SumFor(lens, 0) + Sum(PartCount(part)) + SumFor(PartCount(part), 0) ==
            Sum(DataCounts(octets)) + SumFor(DataCounts(octets), 0)
  {
    CountsBalance(cfg, octets, core, part, own, limit, len, lens);
    AnswersGiveNone(jobs, id, core.credit, limit);
    AnswersGiveNone(jobs, 0, core.credit, limit);
    CreditOfJobs(jobs, id);
    CreditOfJobs(jobs, 0);
  }

  /**
   What a client reads of the octets written for a connection, its answers among them, gives it credit
   for the DATA it sent. Its reads are shorter than 2^31 - 2^24 octets, so no increment is cut.
  */
  lemma ClientGetsCredit(std: Standard, cfg: Config, chunks: seq<seq<byte>>, core: Core, own: seq<Job>, jobs: seq<Job>)
    returns (p: Peer, es: seq<Event>)
    requires Client(std) && |cfg.code| == 257 && Longest(chunks) <= U31 - U24
    requires Served(cfg, ParseFrames(Concat(chunks)).0, core, own, U24 + Longest(chunks))
    requires OwnJobs(jobs) == own && AnswersFit(NO_RANKS, jobs)
    ensures var (fs, rest) := ParseFrames(WriterBytes(NO_RANKS, jobs));
            rest == [] && ReadFrames(std, EMPTY, fs) == Some((p, es)) && es == JobsEvents(jobs)
    ensures var sent := DataLens(ParseFrames(Concat(chunks)).0);
            && (forall id :: id != 0 ==> CreditOn(es, id) == SumFor(sent, id))
            && CreditOn(es, 0) == Sum(sent) + SumFor(sent, 0)
  {
    var fs, limit := ParseFrames(Concat(chunks)).0, U24 + Longest(chunks);
    ServedFit(cfg, fs, core, own, limit, jobs);
    MixedFit(NO_RANKS, jobs);
    p := ClientReadsJobs(std, jobs);
    es := JobsEvents(jobs);
    forall id ensures id != 0 ==> CreditOn(es, id) == SumFor(DataLens(fs), id) {
      CreditIsConserved(cfg, fs, core, own, limit, jobs, id);
    }
    CreditIsConserved(cfg, fs, core, own, limit, jobs, 0);
  }

  /** Reachable: one octet of DATA on stream 0 gives the connection two. */
  lemma ZeroCountsTwice(cfg: Config)
    requires |cfg.code| == 257
    ensures var fs, jobs := [Frame(FrameKind.Data, 0, 0, [0])], [WindowUpdates(1, [(0, 1)])];
            && After(cfg, FRESH, fs) == Next(FRESH.(credit := [(0, 1)]))
            && Settles([(0, 1)], jobs, U24)
            && CreditOn(JobsEvents(jobs), 0) == 2
  {
    var f := Frame(FrameKind.Data, 0, 0, [0]);
    DataOnZero(cfg);
    AfterFirst(cfg, FRESH, f, []);
    assert [f] + [] == [f];
    OneBatch(1, [(0, 1)]);
    SumStep([], (0, 1));
    assert [] + [(0, 1)] == [(0, 1)];
  }

  /** One batch settles what it is of. */
  lemma OneBatch(len: nat, lens: seq<(nat, nat)>)
    requires len == Sum(lens) && len < U24
    ensures Settles(lens, [WindowUpdates(len, lens)], U24)
    ensures CreditOn(JobsEvents([WindowUpdates(len, lens)]), 0) == len + SumFor(lens, 0)
  {
    var job := WindowUpdates(len, lens);
    SendJob([], job);
    assert [] + [job] == [job];
    CreditOfJobs([job], 0);
  }
}
