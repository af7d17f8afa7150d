/**
 The books of flow control (pajamax/src/connection.rs): DATA frames charged, window updates sent, and
 the batch of the read in progress.
*/
module Accounts {
  import opened Bits
  import Writer

  function Max(a: nat, b: nat): nat {
    if a < b then b else a
  }

  function Sum(lens: seq<(nat, nat)>): nat {
    if lens == [] then 0 else Sum(lens[..|lens| - 1]) + lens[|lens| - 1].1
  }

  /** The part of one stream. */
  function SumFor(lens: seq<(nat, nat)>, id: nat): nat {
    if lens == [] then 0
    else SumFor(lens[..|lens| - 1], id) + (if lens[|lens| - 1].0 == id then lens[|lens| - 1].1 else 0)
  }

  lemma {:induction false} SumForBound(lens: seq<(nat, nat)>, id: nat)
    ensures SumFor(lens, id) <= Sum(lens)
    decreases |lens|
  {
    if lens != [] {
      SumForBound(lens[..|lens| - 1], id);
    }
  }

  lemma SumStep(lens: seq<(nat, nat)>, x: (nat, nat))
    ensures Sum(lens + [x]) == Sum(lens) + x.1
    ensures forall id :: SumFor(lens + [x], id) == SumFor(lens, id) + (if x.0 == id then x.1 else 0)
  {
    assert (lens + [x])[..|lens|] == lens;
  }

  /** The octets of control replies among the jobs sent to the writer. */
  function Writes(jobs: seq<Writer.Job>): seq<seq<byte>> {
    if jobs == [] then []
    else Writes(jobs[..|jobs| - 1]) + (match jobs[|jobs| - 1] case Write(buf) => [buf] case _ => [])
  }

  /** The connection credit among the jobs sent to the writer. */
  function SentCredit(jobs: seq<Writer.Job>): nat {
    if jobs == [] then 0
    else SentCredit(jobs[..|jobs| - 1]) + (match jobs[|jobs| - 1] case WindowUpdates(len, _) => len case _ => 0)
  }

  function CreditFor(job: Writer.Job, id: nat): nat {
    if job.WindowUpdates? then SumFor(job.lens, id) else 0
  }

  /** The credit of one stream among the jobs sent to the writer. */
  function SentFor(jobs: seq<Writer.Job>, id: nat): nat {
    if jobs == [] then 0
    else SentFor(jobs[..|jobs| - 1], id) + CreditFor(jobs[|jobs| - 1], id)
  }

  ghost predicate Within(lens: seq<(nat, nat)>, credit: seq<(nat, nat)>) {
    forall x :: x in lens ==> x in credit
  }

  /**
   A job the read loop sends: control replies, or a batch whose increments are of frames charged, add up
   to that of the connection, and stay below a limit.
  */
  ghost predicate IsOwn(job: Writer.Job, credit: seq<(nat, nat)>, limit: nat) {
    match job
    case Write(_) => true
    case WindowUpdates(len, lens) => len == Sum(lens) && len < limit && Within(lens, credit)
    case _ => false
  }

  ghost predicate AllOwn(jobs: seq<Writer.Job>, credit: seq<(nat, nat)>, limit: nat) {
    forall i :: 0 <= i < |jobs| ==> IsOwn(jobs[i], credit, limit)
  }

  /** All the credit charged has been sent. */
  ghost predicate Settles(credit: seq<(nat, nat)>, jobs: seq<Writer.Job>, limit: nat) {
    && Sum(credit) == SentCredit(jobs)
    && (forall id :: SumFor(credit, id) == SentFor(jobs, id))
    && AllOwn(jobs, credit, limit)
  }

  /** Credit sent, and the batch of the current read, make up all that was charged. */
  ghost predicate Balances(credit: seq<(nat, nat)>, jobs: seq<Writer.Job>, limit: nat, len: nat,
          lens: seq<(nat, nat)>) {
    && len == Sum(lens) && Within(lens, credit)
    && Sum(credit) == SentCredit(jobs) + len
    && (forall id :: SumFor(credit, id) == SentFor(jobs, id) + SumFor(lens, id))
    && AllOwn(jobs, credit, limit)
  }

  lemma ChargeAccounts(credit: seq<(nat, nat)>, jobs: seq<Writer.Job>, limit: nat, len: nat, lens: seq<(nat, nat)>,
          x: (nat, nat))
    requires Balances(credit, jobs, limit, len, lens)
    ensures Balances(credit + [x], jobs, limit, len + x.1, lens + [x])
  {
    SumStep(lens, x);
    SumStep(credit, x);
    OwnStay(jobs, credit, limit, [x], limit);
    forall id ensures SumFor(credit + [x], id) == SentFor(jobs, id) + SumFor(lens + [x], id) {
      assert SumFor(credit, id) == SentFor(jobs, id) + SumFor(lens, id);
    }
  }

  lemma OwnStay(jobs: seq<Writer.Job>, credit: seq<(nat, nat)>, limit: nat, more: seq<(nat, nat)>, limit': nat)
    requires AllOwn(jobs, credit, limit) && limit <= limit'
    ensures AllOwn(jobs, credit + more, limit')
  {
    forall i | 0 <= i < |jobs| ensures IsOwn(jobs[i], credit + more, limit') {
      assert IsOwn(jobs[i], credit, limit);
    }
  }

  lemma SendJob(jobs: seq<Writer.Job>, job: Writer.Job)
    ensures Writes(jobs + [job]) == Writes(jobs) + (match job case Write(buf) => [buf] case _ => [])
    ensures SentCredit(jobs + [job]) == SentCredit(jobs) + (match job case WindowUpdates(len, _) => len case _ => 0)
    ensures forall id :: SentFor(jobs + [job], id) == SentFor(jobs, id) + CreditFor(job, id)
    ensures forall credit, limit :: AllOwn(jobs, credit, limit) && IsOwn(job, credit, limit) ==>
              AllOwn(jobs + [job], credit, limit)
  {
    assert (jobs + [job])[..|jobs|] == jobs;
  }

  lemma BatchSettles(credit: seq<(nat, nat)>, jobs: seq<Writer.Job>, limit: nat, len: nat, lens: seq<(nat, nat)>)
    requires Balances(credit, jobs, limit, len, lens) && len < limit
    ensures Settles(credit, jobs + [Writer.WindowUpdates(len, lens)], limit)
    ensures Writes(jobs + [Writer.WindowUpdates(len, lens)]) == Writes(jobs)
  {
    SendJob(jobs, Writer.WindowUpdates(len, lens));
  }

  lemma NothingSettles(credit: seq<(nat, nat)>, jobs: seq<Writer.Job>, limit: nat, lens: seq<(nat, nat)>)
    requires Balances(credit, jobs, limit, 0, lens)
    ensures Settles(credit, jobs, limit)
  {
    forall id ensures SumFor(credit, id) == SentFor(jobs, id) {
      SumForBound(lens, id);
    }
  }
}
